/**
 Paragraphs and word windows: the units that chunks are packed from (document-processor/service.py).
 The text has been stripped and is not empty.
 */
module ChunkUnits {
  import opened Words

  /** `size` words to a window, of which `overlap` are repeated from the window before. */
  ghost predicate Limits(size: nat, overlap: nat) { overlap < size }

  ghost predicate Stripped(text: string) {
    text != "" && !Blank(text[0]) && !Blank(text[|text| - 1])
  }

  // ----- Paragraphs

  /** The lookahead of the paragraph pattern: a blank line or the end of the text. */
  predicate Break(text: string, e: nat)
    requires e <= |text|
  {
    e == |text| || (text[e] == '\n' && exists j | e < j < |text| :: text[j] == '\n' && AllBlank(text, e + 1, j))
  }

  predicate MayEnd(text: string, e: nat)
    requires 0 < e <= |text|
  {
    !Blank(text[e - 1]) && Break(text, e)
  }

  /** What the pattern matches from s: up to the first acceptable end past a second character, else the one
      character. */
  ghost predicate IsParagraph(text: string, s: nat, e: nat) {
    && s < e <= |text| && !Blank(text[s]) && MayEnd(text, e)
    && (forall f | s + 2 <= f < e :: !MayEnd(text, f))
    && (e == s + 1 ==> forall f | s + 2 <= f <= |text| :: !MayEnd(text, f))
  }

  method ParagraphEnd(text: string, s: nat) returns (e: nat)
    requires Stripped(text) && s < |text| && !Blank(text[s])
    ensures IsParagraph(text, s, e)
  {
    e := s + 2;
    while e <= |text|
      invariant s + 2 <= e
      invariant forall f | s + 2 <= f < e && f <= |text| :: !MayEnd(text, f)
    {
      if MayEnd(text, e) {
        return;
      }
      e := e + 1;
    }
    assert s + 2 <= |text| ==> MayEnd(text, |text|);
    e := s + 1;
  }

  /** Paragraphs in order up to e, with nothing but white space between them. */
  ghost predicate ParagraphsUpTo(text: string, ps: seq<Span>, e: nat) {
    && ps != [] && ps[0].0 == 0 && ps[|ps| - 1].1 == e
    && (forall k | 0 <= k < |ps| :: IsParagraph(text, ps[k].0, ps[k].1))
    && (forall k | 0 <= k < |ps| - 1 :: SeparatedAfter(text, ps, k))
  }

  ghost predicate SeparatedAfter(text: string, ps: seq<Span>, k: nat)
    requires k + 1 < |ps|
  {
    Separated(text, ps[k].1, ps[k + 1].0)
  }

  ghost predicate Separated(text: string, e: nat, s: nat) {
    e < s <= |text| && AllBlank(text, e, s)
  }

  lemma AppendParagraph(text: string, ps: seq<Span>, e: nat, next: Span)
    requires ParagraphsUpTo(text, ps, e)
    requires Separated(text, e, next.0) && IsParagraph(text, next.0, next.1)
    ensures ParagraphsUpTo(text, ps + [next], next.1)
  {
    var all := ps + [next];
    forall k | 0 <= k < |all| - 1 ensures SeparatedAfter(text, all, k) {
      if k < |ps| - 1 { assert SeparatedAfter(text, ps, k); }
    }
  }

  method SkipBlanks(text: string, e: nat) returns (s: nat)
    requires Stripped(text) && e < |text| && Blank(text[e])
    ensures e < s < |text| && AllBlank(text, e, s) && !Blank(text[s])
  {
    s := e;
    while Blank(text[s])
      invariant e <= s < |text| && AllBlank(text, e, s)
      decreases |text| - s
    {
      s := s + 1;
    }
  }

  method Paragraphs(text: string) returns (ps: seq<Span>)
    requires Stripped(text)
    ensures ParagraphsUpTo(text, ps, |text|)
  {
    var e := ParagraphEnd(text, 0);
    ps := [(0, e)];
    while e < |text|
      invariant e <= |text| && ParagraphsUpTo(text, ps, e)
      decreases |text| - e
    {
      assert IsParagraph(text, ps[|ps| - 1].0, e);
      var s := SkipBlanks(text, e);
      var end := ParagraphEnd(text, s);
      AppendParagraph(text, ps, e, (s, end));
      ps, e := ps + [(s, end)], end;
    }
  }

  // ----- Words of the whole text, and where units lie in them

  ghost function AllWords(text: string): seq<Span> {
    SpansIn(text, 0, |text|)
  }

  /** A half-open interval of word numbers. */
  type Interval = (nat, nat)

  /** Positions and words agree: from the start of word a to the end of word b - 1, with exactly those words. */
  ghost predicate Covers(text: string, start: nat, end: nat, value: string, at: Interval) {
    && at.0 < at.1 <= |AllWords(text)|
    && start == AllWords(text)[at.0].0 && end == AllWords(text)[at.1 - 1].1
    && WordsOf(value) == Texts(text, AllWords(text)[at.0..at.1])
  }

  datatype Unit = Unit(start: nat, end: nat, value: string)

  function Load(u: Unit): nat { |WordsOf(u.value)| }

  /** The next interval goes on where this one ends, or repeats the overlap of a full window. */
  ghost predicate Linked(i: Interval, j: Interval, size: nat, overlap: nat) {
    && i.0 < j.0 && i.1 < j.1
    && (j.0 == i.1 || (j.0 == i.1 - overlap && i.1 - i.0 == size))
  }

  ghost predicate Chained(at: seq<Interval>, size: nat, overlap: nat) {
    forall k | 0 <= k < |at| - 1 :: LinkedAfter(at, k, size, overlap)
  }

  ghost predicate LinkedAfter(at: seq<Interval>, k: nat, size: nat, overlap: nat)
    requires k + 1 < |at|
  {
    Linked(at[k], at[k + 1], size, overlap)
  }

  /** Units in order, each of at most `size` words. */
  ghost predicate UnitsAt(text: string, units: seq<Unit>, at: seq<Interval>, size: nat) {
    |at| == |units| && forall k | 0 <= k < |units| :: UnitAt(text, units[k], at[k], size)
  }

  ghost predicate UnitAt(text: string, u: Unit, at: Interval, size: nat) {
    Covers(text, u.start, u.end, u.value, at) && at.1 - at.0 <= size
  }

  lemma AppendUnits(text: string, units: seq<Unit>, at: seq<Interval>, more: seq<Unit>, moreAt: seq<Interval>,
                    size: nat, overlap: nat)
    requires UnitsAt(text, units, at, size) && Chained(at, size, overlap)
    requires UnitsAt(text, more, moreAt, size) && Chained(moreAt, size, overlap)
    requires at != [] && moreAt != [] ==> Linked(at[|at| - 1], moreAt[0], size, overlap)
    ensures UnitsAt(text, units + more, at + moreAt, size) && Chained(at + moreAt, size, overlap)
  {
    var all, allUnits := at + moreAt, units + more;
    forall k | 0 <= k < |all| ensures UnitAt(text, allUnits[k], all[k], size) {
      if k < |at| {
        assert UnitAt(text, units[k], at[k], size);
      } else {
        assert UnitAt(text, more[k - |at|], moreAt[k - |at|], size);
      }
    }
    AppendChain(at, moreAt, size, overlap);
  }

  lemma AppendChain(at: seq<Interval>, moreAt: seq<Interval>, size: nat, overlap: nat)
    requires Chained(at, size, overlap) && Chained(moreAt, size, overlap)
    requires at != [] && moreAt != [] ==> Linked(at[|at| - 1], moreAt[0], size, overlap)
    ensures Chained(at + moreAt, size, overlap)
  {
    var all := at + moreAt;
    forall k | 0 <= k < |all| - 1 ensures LinkedAfter(all, k, size, overlap) {
      if k + 1 < |at| {
        assert LinkedAfter(at, k, size, overlap);
      } else if k >= |at| {
        assert LinkedAfter(moreAt, k - |at|, size, overlap);
      }
    }
  }

  lemma LoadIsLength(text: string, u: Unit, at: Interval)
    requires Covers(text, u.start, u.end, u.value, at)
    ensures Load(u) == at.1 - at.0
  {
  }

  /** A part that ends with a word ends where its last word ends. */
  lemma {:induction false} LastWord(s: string, lo: nat, hi: nat)
    requires lo < hi <= |s| && !Blank(s[hi - 1])
    ensures var g := SpansIn(s, lo, hi); g != [] && g[|g| - 1].1 == hi
    decreases hi - lo
  {
    if Blank(s[lo]) {
      LastWord(s, lo + 1, hi);
    } else {
      var e := WordEnd(s, lo, hi);
      if e < hi { LastWord(s, e, hi); }
      OneWordMore(s, lo, e, hi);
    }
  }

  lemma OneWordMore(s: string, lo: nat, e: nat, hi: nat)
    requires lo < hi <= |s| && !Blank(s[lo]) && e == WordEnd(s, lo, hi)
    ensures SpansIn(s, lo, hi) == [(lo, e)] + SpansIn(s, e, hi)
    ensures e == hi ==> SpansIn(s, lo, hi) == [(lo, hi)]
  {
  }

  /** The words of the text up to a paragraph, in it and after it. */
  lemma ParagraphWords(text: string, before: nat, s: nat, e: nat)
    requires before <= s < e <= |text| && AllBlank(text, before, s)
    requires before == 0 || Blank(text[before])
    requires !Blank(text[s]) && (e == |text| || Blank(text[e]))
    requires before == s ==> before == 0
    ensures SpansIn(text, 0, e) == SpansIn(text, 0, before) + SpansIn(text, s, e)
    ensures AllWords(text) == SpansIn(text, 0, before) + SpansIn(text, s, e) + SpansIn(text, e, |text|)
  {
    CutSpans(text, 0, e, |text|);
    CutSpans(text, 0, before, e);
    BlanksBefore(text, before, s, e);
  }

  /** Blanks before a word hold no words. */
  lemma BlanksBefore(text: string, before: nat, s: nat, e: nat)
    requires before <= s < e <= |text| && AllBlank(text, before, s)
    ensures SpansIn(text, before, e) == SpansIn(text, s, e)
  {
    NoWords(text, before, s);
    if before < s { assert Blank(text[s - 1]); }
    CutSpans(text, before, s, e);
    assert [] + SpansIn(text, s, e) == SpansIn(text, s, e);
  }

  // ----- Units of one paragraph

  /** `first` is the number of words before the paragraph. */
  ghost predicate InParagraph(text: string, s: nat, e: nat, first: nat) {
    && s < e <= |text| && !Blank(text[s]) && !Blank(text[e - 1])
    && first + |SpansIn(text, s, e)| <= |AllWords(text)|
    && AllWords(text)[first..first + |SpansIn(text, s, e)|] == SpansIn(text, s, e)
  }

  lemma WholeParagraph(text: string, s: nat, e: nat, first: nat)
    requires InParagraph(text, s, e, first)
    ensures Covers(text, s, e, text[s..e], (first, first + |SpansIn(text, s, e)|))
  {
    LastWord(text, s, e);
    PartWords(text, s, e);
    var g, n := AllWords(text), |SpansIn(text, s, e)|;
    assert g[first] == SpansIn(text, s, e)[0];
    assert g[first + n - 1] == SpansIn(text, s, e)[n - 1];
  }

  ghost function ParagraphSpans(text: string, s: nat, e: nat): (words: seq<Span>)
    requires s <= e <= |text|
    ensures Within(text[s..e], words)
  {
    SpansIn(text[s..e], 0, e - s)
  }

  ghost function WindowUnit(text: string, s: nat, e: nat, a: nat, b: nat): Unit
    requires s <= e <= |text| && a < b <= |ParagraphSpans(text, s, e)|
  {
    var words := ParagraphSpans(text, s, e);
    Unit(s + words[a].0, s + words[b - 1].1, Join(Texts(text[s..e], words[a..b]), " "))
  }

  lemma ParagraphSpansShift(text: string, s: nat, e: nat)
    requires s <= e <= |text|
    ensures SpansIn(text, s, e) == Shift(ParagraphSpans(text, s, e), s)
  {
    PartWords(text, s, e);
  }

  /** A window of the paragraph's words, joined by single spaces, holds exactly those words of the text. */
  lemma WindowWordsOf(text: string, s: nat, e: nat, first: nat, a: nat, b: nat)
    requires InParagraph(text, s, e, first) && a < b <= |ParagraphSpans(text, s, e)|
    ensures first + b <= |AllWords(text)|
    ensures WordsOf(WindowUnit(text, s, e, a, b).value) == Texts(text, AllWords(text)[first + a..first + b])
  {
    var words := ParagraphSpans(text, s, e);
    var window := words[a..b];
    ParagraphSpansShift(text, s, e);
    WindowTexts(text, s, e, window);
    WindowOfAll(AllWords(text), words, s, first, a, b);
    WindowIsWords(text[s..e], a, b);
    JoinWords(Texts(text[s..e], window));
  }

  lemma PartOfPart<T>(all: seq<T>, first: nat, n: nat, a: nat, b: nat)
    requires first + n <= |all| && a <= b <= n
    ensures all[first..first + n][a..b] == all[first + a..first + b]
  {
    var part, whole := all[first..first + n][a..b], all[first + a..first + b];
    forall k | 0 <= k < b - a ensures part[k] == whole[k] {
      assert part[k] == all[first..first + n][a + k];
    }
    assert |part| == |whole|;
  }

  lemma WindowOfAll(all: seq<Span>, words: seq<Span>, s: nat, first: nat, a: nat, b: nat)
    requires first + |words| <= |all| && all[first..first + |words|] == Shift(words, s) && a < b <= |words|
    ensures Shift(words[a..b], s) == all[first + a..first + b]
    ensures all[first + a] == (words[a].0 + s, words[a].1 + s)
            && all[first + b - 1] == (words[b - 1].0 + s, words[b - 1].1 + s)
  {
    ShiftedWindow(words, a, b, s);
    var part, n := all[first..first + |words|], |words|;
    PartOfPart(all, first, n, a, b);
    assert all[first + a] == part[a] && all[first + b - 1] == part[b - 1];
  }

  /** It also keeps the original positions of its first and last word. */
  lemma WindowCovers(text: string, s: nat, e: nat, first: nat, a: nat, b: nat)
    requires InParagraph(text, s, e, first) && a < b <= |ParagraphSpans(text, s, e)|
    ensures var unit := WindowUnit(text, s, e, a, b);
            Covers(text, unit.start, unit.end, unit.value, (first + a, first + b))
  {
    WindowWordsOf(text, s, e, first, a, b);
    ParagraphSpansShift(text, s, e);
    WindowOfAll(AllWords(text), ParagraphSpans(text, s, e), s, first, a, b);
  }

  lemma ShiftedWindow(spans: seq<Span>, a: nat, b: nat, d: nat)
    requires a <= b <= |spans|
    ensures Shift(spans[a..b], d) == Shift(spans, d)[a..b]
  {
  }

  lemma WindowIsWords(s: string, a: nat, b: nat)
    requires a <= b <= |SpansIn(s, 0, |s|)|
    ensures forall w | w in Texts(s, SpansIn(s, 0, |s|)[a..b]) :: IsWord(w)
  {
    var words := SpansIn(s, 0, |s|);
    SpansAreWords(s, 0, |s|);
    forall w | w in Texts(s, words[a..b]) ensures IsWord(w) {
      var k :| 0 <= k < b - a && Texts(s, words[a..b])[k] == w;
      assert words[a..b][k] == words[a + k];
    }
  }

  lemma WindowTexts(text: string, s: nat, e: nat, spans: seq<Span>)
    requires s <= e <= |text| && Within(text[s..e], spans)
    ensures Within(text, Shift(spans, s)) && Texts(text[s..e], spans) == Texts(text, Shift(spans, s))
  {
    ShiftedTexts(text[s..e], text, s, spans);
  }

  /** Units so far, covering the words from the first interval's start to the last one's end. */
  ghost predicate Covered(text: string, units: seq<Unit>, at: seq<Interval>, size: nat, overlap: nat, first: nat,
                          last: Interval) {
    && UnitsAt(text, units, at, size) && Chained(at, size, overlap)
    && at != [] && at[0].0 == first && at[|at| - 1] == last
  }

  lemma FirstUnit(text: string, u: Unit, at: Interval, size: nat, overlap: nat)
    requires UnitAt(text, u, at, size)
    ensures Covered(text, [u], [at], size, overlap, at.0, at)
  {
  }

  lemma NextUnits(text: string, units: seq<Unit>, at: seq<Interval>, size: nat, overlap: nat, first: nat,
                  last: Interval, more: seq<Unit>, moreAt: seq<Interval>, second: nat, end: Interval)
    requires Covered(text, units, at, size, overlap, first, last)
    requires Covered(text, more, moreAt, size, overlap, second, end)
    requires Linked(last, moreAt[0], size, overlap)
    ensures Covered(text, units + more, at + moreAt, size, overlap, first, end)
  {
    AppendUnits(text, units, at, more, moreAt, size, overlap);
  }

  // ----- The units that a paragraph is meant to make

  /** Windows over n words from word `start` on: `size` words each, every one but the first repeating `overlap` words,
      until one reaches the last word. */
  ghost function Windows(n: nat, start: nat, size: nat, overlap: nat): (windows: seq<Interval>)
    requires Limits(size, overlap) && start < n
    ensures Windowed(windows, n)
    decreases n - start
  {
    if start + size >= n then [(start, n)]
    else [(start, start + size)] + Windows(n, start + (size - overlap), size, overlap)
  }

  ghost predicate Windowed(windows: seq<Interval>, n: nat) {
    forall k | 0 <= k < |windows| :: windows[k].0 < windows[k].1 <= n
  }

  ghost function WindowUnits(text: string, s: nat, e: nat, windows: seq<Interval>): (units: seq<Unit>)
    requires s <= e <= |text| && Windowed(windows, |ParagraphSpans(text, s, e)|)
    ensures |units| == |windows|
  {
    seq(|windows|, k requires 0 <= k < |windows| => WindowUnit(text, s, e, windows[k].0, windows[k].1))
  }

  /** A paragraph of at most `size` words is one unit, kept as it is. */
  ghost function ParagraphUnits(text: string, s: nat, e: nat, size: nat, overlap: nat): seq<Unit>
    requires s <= e <= |text| && Limits(size, overlap)
  {
    var n := |ParagraphSpans(text, s, e)|;
    if n <= size then [Unit(s, e, text[s..e])] else WindowUnits(text, s, e, Windows(n, 0, size, overlap))
  }

  /** The first n parts, one after the other. */
  ghost function Flat<T>(parts: seq<seq<T>>, n: nat): seq<T>
    requires n <= |parts|
  {
    if n == 0 then [] else Flat(parts, n - 1) + parts[n - 1]
  }

  ghost function ParagraphParts(text: string, ps: seq<Span>, size: nat, overlap: nat): (parts: seq<seq<Unit>>)
    requires Within(text, ps) && Limits(size, overlap)
    ensures |parts| == |ps|
    ensures forall k | 0 <= k < |ps| :: parts[k] == ParagraphUnits(text, ps[k].0, ps[k].1, size, overlap)
  {
    seq(|ps|, k requires 0 <= k < |ps| => ParagraphUnits(text, ps[k].0, ps[k].1, size, overlap))
  }

  /** The units of the first n paragraphs. */
  ghost function TextUnits(text: string, ps: seq<Span>, n: nat, size: nat, overlap: nat): seq<Unit>
    requires n <= |ps| && Within(text, ps) && Limits(size, overlap)
  {
    Flat(ParagraphParts(text, ps, size, overlap), n)
  }

  lemma WindowCovered(text: string, s: nat, e: nat, first: nat, a: nat, b: nat, at: Interval, size: nat, overlap: nat)
    requires InParagraph(text, s, e, first) && a < b <= |ParagraphSpans(text, s, e)| && b - a <= size
    requires at == (first + a, first + b)
    ensures Covered(text, [WindowUnit(text, s, e, a, b)], [at], size, overlap, at.0, at)
  {
    WindowCovers(text, s, e, first, a, b);
    FirstUnit(text, WindowUnit(text, s, e, a, b), at, size, overlap);
  }

  /** The window of the words a to b - 1. */
  method Window(text: string, s: nat, e: nat, words: seq<Span>, a: nat, b: nat) returns (unit: Unit)
    requires s <= e <= |text| && words == ParagraphSpans(text, s, e) && a < b <= |words|
    ensures unit == WindowUnit(text, s, e, a, b)
  {
    var window := words[a..b];
    unit := Unit(s + window[0].0, s + window[|window| - 1].1, Join(Texts(text[s..e], window), " "));
  }

  ghost predicate CoveredSoFar(text: string, units: seq<Unit>, at: seq<Interval>, size: nat, overlap: nat, first: nat,
                               last: Interval) {
    (units == [] && at == [] && last == (first, first)) || Covered(text, units, at, size, overlap, first, last)
  }

  /** `words` are the words of the paragraph, at their positions inside it. */
  ghost predicate WordsInside(text: string, s: nat, e: nat, words: seq<Span>, first: nat) {
    && InParagraph(text, s, e, first)
    && words == SpansIn(text[s..e], 0, e - s) && |words| == |SpansIn(text, s, e)|
  }

  /** One more window after those that end with `last`. */
  method AddWindow(text: string, s: nat, e: nat, words: seq<Span>, a: nat, b: nat, size: nat, overlap: nat,
                   ghost first: nat, before: seq<Unit>, ghost beforeAt: seq<Interval>, ghost last: Interval)
    returns (units: seq<Unit>, ghost at: seq<Interval>)
    requires WordsInside(text, s, e, words, first) && a < b <= |words| && b - a <= size
    requires CoveredSoFar(text, before, beforeAt, size, overlap, first, last)
    requires if before == [] then a == 0 else Linked(last, (first + a, first + b), size, overlap)
    ensures units != [] && CoveredSoFar(text, units, at, size, overlap, first, (first + a, first + b))
    ensures units == before + [WindowUnit(text, s, e, a, b)]
  {
    ghost var next: Interval := (first + a, first + b);
    var unit := Window(text, s, e, words, a, b);
    WindowCovered(text, s, e, first, a, b, next, size, overlap);
    if before != [] {
      NextUnits(text, before, beforeAt, size, overlap, first, last, [unit], [next], next.0, next);
    }
    units, at := before + [unit], beforeAt + [next];
    assert before == [] ==> units == [unit] && at == [next];
  }

  /** `cut` and the windows from `start` on are all the windows. */
  ghost predicate LeftToCut(n: nat, start: nat, size: nat, overlap: nat, cut: seq<Interval>) {
    Limits(size, overlap) && start < n && cut + Windows(n, start, size, overlap) == Windows(n, 0, size, overlap)
  }

  lemma NothingCut(n: nat, size: nat, overlap: nat)
    requires Limits(size, overlap) && 0 < n
    ensures LeftToCut(n, 0, size, overlap, [])
  {
    assert [] + Windows(n, 0, size, overlap) == Windows(n, 0, size, overlap);
  }

  lemma OneMoreCut(n: nat, start: nat, end: nat, next: nat, size: nat, overlap: nat, cut: seq<Interval>)
    returns (more: seq<Interval>)
    requires LeftToCut(n, start, size, overlap, cut) && next == start + (size - overlap)
    requires end == if start + size < n then start + size else n
    ensures more == cut + [(start, end)]
    ensures if end < n then LeftToCut(n, next, size, overlap, more) else more == Windows(n, 0, size, overlap)
  {
    more := cut + [(start, end)];
    if end < n {
      assert more + Windows(n, next, size, overlap) == cut + ([(start, end)] + Windows(n, next, size, overlap));
    }
  }

  lemma WindowUnitsStep(text: string, s: nat, e: nat, windows: seq<Interval>, a: nat, b: nat)
    requires s <= e <= |text| && Windowed(windows, |ParagraphSpans(text, s, e)|)
             && a < b <= |ParagraphSpans(text, s, e)|
    ensures WindowUnits(text, s, e, windows + [(a, b)])
            == WindowUnits(text, s, e, windows) + [WindowUnit(text, s, e, a, b)]
  {
  }

  /** The window loop before word `start`: full windows so far. */
  ghost predicate CutState(text: string, s: nat, e: nat, words: seq<Span>, start: nat, size: nat, overlap: nat,
                           first: nat, units: seq<Unit>, at: seq<Interval>, last: Interval) {
    && Limits(size, overlap) && WordsInside(text, s, e, words, first) && start < |words|
    && CoveredSoFar(text, units, at, size, overlap, first, last)
    && (units == [] ==> start == 0)
    && (units != [] ==> last.1 - last.0 == size && last.1 == first + start + overlap && start + overlap < |words|)
  }

  /** The last window ends with the last word; a full one leads on to the next start. */
  method CutWindow(text: string, s: nat, e: nat, words: seq<Span>, start: nat, end: nat, size: nat, overlap: nat,
                   ghost first: nat, before: seq<Unit>, ghost beforeAt: seq<Interval>, ghost beforeLast: Interval)
    returns (units: seq<Unit>, ghost at: seq<Interval>, ghost last: Interval)
    requires CutState(text, s, e, words, start, size, overlap, first, before, beforeAt, beforeLast)
    requires end == if start + size < |words| then start + size else |words|
    ensures end == |words| ==>
              units != [] && CoveredSoFar(text, units, at, size, overlap, first, last) && last.1 == first + |words|
    ensures end < |words| ==> CutState(text, s, e, words, start + (size - overlap), size, overlap, first, units, at,
                                       last)
    ensures units == before + [WindowUnit(text, s, e, start, end)]
  {
    units, at := AddWindow(text, s, e, words, start, end, size, overlap, first, before, beforeAt, beforeLast);
    last := (first + start, first + end);
  }

  /** The units so far, and which windows are still to come. */
  ghost predicate CutTo(text: string, s: nat, e: nat, n: nat, start: nat, size: nat, overlap: nat, units: seq<Unit>) {
    && s <= e <= |text| && n == |ParagraphSpans(text, s, e)|
    && exists cut :: LeftToCut(n, start, size, overlap, cut) && Windowed(cut, n)
        && units == WindowUnits(text, s, e, cut)
  }

  lemma CutFromStart(text: string, s: nat, e: nat, n: nat, size: nat, overlap: nat)
    requires Limits(size, overlap) && s <= e <= |text| && 0 < n == |ParagraphSpans(text, s, e)|
    ensures CutTo(text, s, e, n, 0, size, overlap, [])
  {
    NothingCut(n, size, overlap);
    assert WindowUnits(text, s, e, []) == [];
  }

  lemma CutOn(text: string, s: nat, e: nat, n: nat, start: nat, end: nat, next: nat, size: nat, overlap: nat,
              units: seq<Unit>, more: seq<Unit>)
    requires CutTo(text, s, e, n, start, size, overlap, units) && start < end <= n && next == start + (size - overlap)
    requires end == if start + size < n then start + size else n
    requires more == units + [WindowUnit(text, s, e, start, end)]
    ensures end < n ==> CutTo(text, s, e, n, next, size, overlap, more)
    ensures end == n ==> more == WindowUnits(text, s, e, Windows(n, 0, size, overlap))
  {
    var cut :| LeftToCut(n, start, size, overlap, cut) && Windowed(cut, n) && units == WindowUnits(text, s, e, cut);
    WindowUnitsStep(text, s, e, cut, start, end);
    var windows := OneMoreCut(n, start, end, next, size, overlap, cut);
  }

  /** A long paragraph is cut into windows of `size` words, each starting `size - overlap` words after the last. */
  method CutWindows(text: string, s: nat, e: nat, words: seq<Span>, size: nat, overlap: nat, ghost first: nat)
    returns (units: seq<Unit>, ghost at: seq<Interval>, ghost last: Interval)
    requires Limits(size, overlap) && WordsInside(text, s, e, words, first) && |words| > size
    ensures units != [] && CoveredSoFar(text, units, at, size, overlap, first, last) && last.1 == first + |words|
    ensures units == WindowUnits(text, s, e, Windows(|words|, 0, size, overlap))
  {
    units, at, last := [], [], (first, first);
    var start := 0;
    CutFromStart(text, s, e, |words|, size, overlap);
    while true
      invariant CutState(text, s, e, words, start, size, overlap, first, units, at, last)
      invariant CutTo(text, s, e, |words|, start, size, overlap, units)
      decreases |words| - start
    {
      ghost var before := units;
      var end := if start + size < |words| then start + size else |words|;
      var next := start + (size - overlap);
      units, at, last := CutWindow(text, s, e, words, start, end, size, overlap, first, units, at, last);
      CutOn(text, s, e, |words|, start, end, next, size, overlap, before, units);
      if start + size >= |words| {
        return;
      }
      start := next;
    }
  }

  method SplitParagraph(text: string, s: nat, e: nat, size: nat, overlap: nat, ghost first: nat)
    returns (units: seq<Unit>, ghost at: seq<Interval>, ghost last: Interval)
    requires Limits(size, overlap) && InParagraph(text, s, e, first)
    ensures Covered(text, units, at, size, overlap, first, last) && last.1 == first + |SpansIn(text, s, e)|
    ensures units == ParagraphUnits(text, s, e, size, overlap)
  {
    var paragraph := text[s..e];
    var words := SpansIn(paragraph, 0, |paragraph|);
    PartWords(text, s, e);
    if |words| <= size {
      WholeParagraph(text, s, e, first);
      last := (first, first + |words|);
      units, at := [Unit(s, e, paragraph)], [last];
      FirstUnit(text, units[0], last, size, overlap);
    } else {
      units, at, last := CutWindows(text, s, e, words, size, overlap, first);
    }
  }

  // ----- Units of the text

  lemma EnterParagraph(text: string, before: nat, s: nat, e: nat)
    requires IsParagraph(text, s, e)
    requires before == s == 0 || (Separated(text, before, s) && Break(text, before))
    ensures SpansIn(text, 0, e) == SpansIn(text, 0, before) + SpansIn(text, s, e)
    ensures InParagraph(text, s, e, |SpansIn(text, 0, before)|)
  {
    ParagraphWords(text, before, s, e);
  }

  lemma ParagraphsInside(text: string, ps: seq<Span>, e: nat)
    requires ParagraphsUpTo(text, ps, e)
    ensures Within(text, ps)
  {
    forall k | 0 <= k < |ps| ensures ps[k].0 <= ps[k].1 <= |text| { assert IsParagraph(text, ps[k].0, ps[k].1); }
  }

  /** The units are those of the paragraphs in order, and cover the words of the text from the first to the last. */
  method BuildUnits(text: string, size: nat, overlap: nat)
    returns (units: seq<Unit>, ps: seq<Span>, ghost at: seq<Interval>, ghost last: Interval)
    requires Stripped(text) && Limits(size, overlap)
    ensures ParagraphsUpTo(text, ps, |text|) && Within(text, ps) && units == TextUnits(text, ps, |ps|, size, overlap)
    ensures Covered(text, units, at, size, overlap, 0, last) && last.1 == |AllWords(text)|
  {
    ps := Paragraphs(text);
    ParagraphsInside(text, ps, |text|);
    units, at, last := FirstUnits(text, ps, size, overlap);
    for k := 1 to |ps|
      invariant Covered(text, units, at, size, overlap, 0, last)
      invariant last.1 == |SpansIn(text, 0, ps[k - 1].1)|
      invariant units == TextUnits(text, ps, k, size, overlap)
    {
      units, at, last := MoreUnits(text, ps, size, overlap, k, units, at, last);
    }
  }

  method FirstUnits(text: string, ps: seq<Span>, size: nat, overlap: nat)
    returns (units: seq<Unit>, ghost at: seq<Interval>, ghost last: Interval)
    requires Limits(size, overlap) && ParagraphsUpTo(text, ps, |text|) && Within(text, ps)
    ensures Covered(text, units, at, size, overlap, 0, last) && last.1 == |SpansIn(text, 0, ps[0].1)|
    ensures units == TextUnits(text, ps, 1, size, overlap)
  {
    assert IsParagraph(text, ps[0].0, ps[0].1);
    EnterParagraph(text, 0, 0, ps[0].1);
    assert SpansIn(text, 0, 0) == [];
    units, at, last := SplitParagraph(text, 0, ps[0].1, size, overlap, 0);
    assert TextUnits(text, ps, 0, size, overlap) == [];
  }

  /** The units of one more paragraph. */
  method MoreUnits(text: string, ps: seq<Span>, size: nat, overlap: nat, k: nat,
                   before: seq<Unit>, ghost beforeAt: seq<Interval>, ghost beforeLast: Interval)
    returns (units: seq<Unit>, ghost at: seq<Interval>, ghost last: Interval)
    requires Limits(size, overlap) && ParagraphsUpTo(text, ps, |text|) && Within(text, ps) && 0 < k < |ps|
    requires Covered(text, before, beforeAt, size, overlap, 0, beforeLast)
             && beforeLast.1 == |SpansIn(text, 0, ps[k - 1].1)|
    ensures Covered(text, units, at, size, overlap, 0, last) && last.1 == |SpansIn(text, 0, ps[k].1)|
    ensures units == before + ParagraphUnits(text, ps[k].0, ps[k].1, size, overlap)
  {
    assert IsParagraph(text, ps[k - 1].0, ps[k - 1].1) && IsParagraph(text, ps[k].0, ps[k].1);
    assert SeparatedAfter(text, ps, k - 1);
    EnterParagraph(text, ps[k - 1].1, ps[k].0, ps[k].1);
    var more; ghost var moreAt;
    more, moreAt, last := SplitParagraph(text, ps[k].0, ps[k].1, size, overlap, beforeLast.1);
    ParagraphLink(text, before, beforeAt, more, moreAt, size, overlap, beforeLast, last);
    NextUnits(text, before, beforeAt, size, overlap, 0, beforeLast, more, moreAt, beforeLast.1, last);
    units, at := before + more, beforeAt + moreAt;
  }

  /** A stripped text has only one division into paragraphs. */
  lemma {:induction false} SameParagraphs(text: string, ps: seq<Span>, qs: seq<Span>, k: nat)
    requires ParagraphsUpTo(text, ps, |text|) && ParagraphsUpTo(text, qs, |text|) && k < |ps|
    ensures k < |qs| && ps[k] == qs[k]
  {
    assert IsParagraph(text, ps[k].0, ps[k].1);
    if k == 0 {
      assert IsParagraph(text, qs[0].0, qs[0].1);
    } else {
      SameParagraphs(text, ps, qs, k - 1);
      assert IsParagraph(text, ps[k - 1].0, ps[k - 1].1);
      assert SeparatedAfter(text, ps, k - 1) && SeparatedAfter(text, qs, k - 1);
      assert IsParagraph(text, qs[k].0, qs[k].1);
      assert ps[k].0 == qs[k].0;
    }
  }

  lemma UniqueParagraphs(text: string, ps: seq<Span>, qs: seq<Span>)
    requires ParagraphsUpTo(text, ps, |text|) && ParagraphsUpTo(text, qs, |text|)
    ensures ps == qs
  {
    SameParagraphs(text, ps, qs, |ps| - 1);
    SameParagraphs(text, qs, ps, |qs| - 1);
    forall k | 0 <= k < |ps| ensures ps[k] == qs[k] { SameParagraphs(text, ps, qs, k); }
  }

  lemma ParagraphLink(text: string, units: seq<Unit>, at: seq<Interval>, more: seq<Unit>, moreAt: seq<Interval>,
                      size: nat, overlap: nat, last: Interval, end: Interval)
    requires Covered(text, units, at, size, overlap, 0, last)
    requires Covered(text, more, moreAt, size, overlap, last.1, end)
    ensures Linked(last, moreAt[0], size, overlap)
  {
    assert UnitAt(text, units[|at| - 1], at[|at| - 1], size);
    assert UnitAt(text, more[0], moreAt[0], size);
  }

  // ----- How many words a unit has

  /** A window has as many words as its interval. */
  lemma WindowLoad(text: string, s: nat, e: nat, a: nat, b: nat)
    requires s <= e <= |text| && a < b <= |ParagraphSpans(text, s, e)|
    ensures Load(WindowUnit(text, s, e, a, b)) == b - a
  {
    WindowIsWords(text[s..e], a, b);
    JoinWords(Texts(text[s..e], ParagraphSpans(text, s, e)[a..b]));
  }

  ghost predicate WindowSize(windows: seq<Interval>, k: nat, size: nat)
    requires k < |windows|
  {
    && windows[k].0 < windows[k].1 <= windows[k].0 + size
    && (k < |windows| - 1 ==> windows[k].1 == windows[k].0 + size)
  }

  /** Every window but the last is full. */
  lemma {:induction false} WindowsFull(n: nat, start: nat, size: nat, overlap: nat)
    requires Limits(size, overlap) && start < n
    ensures forall k | 0 <= k < |Windows(n, start, size, overlap)| ::
              WindowSize(Windows(n, start, size, overlap), k, size)
    decreases n - start
  {
    var windows := Windows(n, start, size, overlap);
    if start + size < n {
      var rest := Windows(n, start + (size - overlap), size, overlap);
      WindowsFull(n, start + (size - overlap), size, overlap);
      forall k | 0 <= k < |windows| ensures WindowSize(windows, k, size) {
        if k > 0 { assert WindowSize(rest, k - 1, size) && windows[k] == rest[k - 1]; }
      }
    }
  }

  /** Every window after the first starts `size - overlap` words later. */
  lemma {:induction false} WindowCount(n: nat, start: nat, size: nat, overlap: nat)
    requires Limits(size, overlap) && start < n
    ensures |Windows(n, start, size, overlap)| >= 1
    ensures (|Windows(n, start, size, overlap)| - 1) * (size - overlap) < n - start
    decreases n - start
  {
    if start + size < n {
      var rest, step := |Windows(n, start + (size - overlap), size, overlap)|, size - overlap;
      WindowCount(n, start + step, size, overlap);
      assert rest * step == (rest - 1) * step + step;
    }
  }

  /** A unit with at least one word and no more than the limit; a full one unless it is the last of its paragraph. */
  ghost predicate UnitLoad(units: seq<Unit>, k: nat, size: nat)
    requires k < |units|
  {
    1 <= Load(units[k]) <= size && (k < |units| - 1 ==> Load(units[k]) == size)
  }

  lemma ParagraphLoads(text: string, s: nat, e: nat, size: nat, overlap: nat)
    requires s <= e <= |text| && Limits(size, overlap) && |ParagraphSpans(text, s, e)| > 0
    ensures var units := ParagraphUnits(text, s, e, size, overlap);
            forall k | 0 <= k < |units| :: UnitLoad(units, k, size)
  {
    var units, n := ParagraphUnits(text, s, e, size, overlap), |ParagraphSpans(text, s, e)|;
    if n > size {
      var windows := Windows(n, 0, size, overlap);
      WindowsFull(n, 0, size, overlap);
      forall k | 0 <= k < |units| ensures UnitLoad(units, k, size) {
        assert WindowSize(windows, k, size);
        WindowLoad(text, s, e, windows[k].0, windows[k].1);
      }
    }
  }

  lemma ParagraphHasWords(text: string, s: nat, e: nat)
    requires IsParagraph(text, s, e)
    ensures |ParagraphSpans(text, s, e)| > 0
  {
    LastWord(text, s, e);
    ParagraphSpansShift(text, s, e);
  }

  lemma PrefixSlice<T>(a: seq<T>, b: seq<T>, i: nat, j: nat)
    requires i <= j <= |a|
    ensures (a + b)[i..j] == a[i..j]
  {
  }

  /** Each part lies together, after those before it. */
  lemma {:induction false} FlatSlice<T>(parts: seq<seq<T>>, p: nat, n: nat)
    requires p < n <= |parts|
    ensures var first := |Flat(parts, p)|;
            && first + |parts[p]| <= |Flat(parts, n)|
            && Flat(parts, n)[first..first + |parts[p]|] == parts[p]
    decreases n
  {
    if p < n - 1 {
      FlatSlice(parts, p, n - 1);
      PrefixSlice(Flat(parts, n - 1), parts[n - 1], |Flat(parts, p)|, |Flat(parts, p)| + |parts[p]|);
    }
  }

  lemma FlatAt<T>(parts: seq<seq<T>>, n: nat, p: nat, a: nat, k: nat)
    requires p < n <= |parts| && a < |parts[p]| && k == |Flat(parts, p)| + a
    ensures k < |Flat(parts, n)| && Flat(parts, n)[k] == parts[p][a]
  {
    FlatSlice(parts, p, n);
    var first := |Flat(parts, p)|;
    assert Flat(parts, n)[first..first + |parts[p]|][a] == Flat(parts, n)[k];
  }

  /** Every element comes from a part. */
  lemma {:induction false} FlatElement<T>(parts: seq<seq<T>>, n: nat, k: nat) returns (p: nat, a: nat)
    requires n <= |parts| && k < |Flat(parts, n)|
    ensures p < n && a < |parts[p]| && k == |Flat(parts, p)| + a && Flat(parts, n)[k] == parts[p][a]
    decreases n
  {
    if k < |Flat(parts, n - 1)| {
      p, a := FlatElement(parts, n - 1, k);
    } else {
      p, a := n - 1, k - |Flat(parts, n - 1)|;
    }
  }

  lemma PartLoads(text: string, ps: seq<Span>, size: nat, overlap: nat, p: nat)
    requires Within(text, ps) && Limits(size, overlap) && p < |ps| && IsParagraph(text, ps[p].0, ps[p].1)
    ensures var part := ParagraphParts(text, ps, size, overlap)[p];
            forall k | 0 <= k < |part| :: UnitLoad(part, k, size)
  {
    ParagraphHasWords(text, ps[p].0, ps[p].1);
    ParagraphLoads(text, ps[p].0, ps[p].1, size, overlap);
  }
}
