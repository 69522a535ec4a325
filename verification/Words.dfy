/** Words of a text: the maximal runs of characters that are not white space, with their positions. */
module Words {

  type Span = (nat, nat)

  /** White space, as Python's str.split and the pattern \s see it. */
  predicate Blank(c: char) {
    || '\t' <= c <= '\r' || '\U{1c}' <= c <= ' ' || c == '\U{85}' || c == '\U{a0}'
    || c == '\U{1680}' || '\U{2000}' <= c <= '\U{200a}' || c == '\U{2028}' || c == '\U{2029}'
    || c == '\U{202f}' || c == '\U{205f}' || c == '\U{3000}'
  }

  predicate AllBlank(s: string, lo: nat, hi: nat)
    requires lo <= hi <= |s|
  {
    forall i | lo <= i < hi :: Blank(s[i])
  }

  function WordEnd(s: string, i: nat, hi: nat): (e: nat)
    requires i < hi <= |s| && !Blank(s[i])
    ensures i < e <= hi
    ensures forall k | i <= k < e :: !Blank(s[k])
    ensures e == hi || Blank(s[e])
    decreases hi - i
  {
    if i + 1 == hi || Blank(s[i + 1]) then i + 1 else WordEnd(s, i + 1, hi)
  }

  predicate WordAt(s: string, w: Span, lo: nat, hi: nat)
    requires lo <= hi <= |s|
  {
    lo <= w.0 < w.1 <= hi && !Blank(s[w.0]) && !Blank(s[w.1 - 1]) && (w.1 == hi || Blank(s[w.1]))
  }

  /** The words between lo and hi. */
  function SpansIn(s: string, lo: nat, hi: nat): (spans: seq<Span>)
    requires lo <= hi <= |s|
    ensures forall k | 0 <= k < |spans| :: WordAt(s, spans[k], lo, hi)
    decreases hi - lo
  {
    if lo == hi then []
    else if Blank(s[lo]) then SpansIn(s, lo + 1, hi)
    else
      var e := WordEnd(s, lo, hi);
      [(lo, e)] + SpansIn(s, e, hi)
  }

  ghost predicate Within(s: string, spans: seq<Span>) {
    forall k | 0 <= k < |spans| :: spans[k].0 <= spans[k].1 <= |s|
  }

  function Texts(s: string, spans: seq<Span>): (words: seq<string>)
    requires Within(s, spans)
    ensures |words| == |spans|
  {
    seq(|spans|, i requires 0 <= i < |spans| => s[spans[i].0..spans[i].1])
  }

  function WordsOf(s: string): seq<string> {
    Texts(s, SpansIn(s, 0, |s|))
  }

  lemma TextsConcat(s: string, a: seq<Span>, b: seq<Span>)
    requires Within(s, a) && Within(s, b)
    ensures Texts(s, a + b) == Texts(s, a) + Texts(s, b)
  {
  }

  // ----- Cutting between words

  lemma SameWordEnd(s: string, i: nat, m: nat, hi: nat)
    requires i < m <= hi <= |s| && !Blank(s[i])
    requires m == hi || Blank(s[m]) || Blank(s[m - 1])
    ensures WordEnd(s, i, m) == WordEnd(s, i, hi)
  {
    var e, f := WordEnd(s, i, m), WordEnd(s, i, hi);
    assert e == m || Blank(s[e]);
    assert f == hi || Blank(s[f]);
  }

  lemma PrependToBoth(first: Span, a: seq<Span>, b: seq<Span>)
    ensures [first] + (a + b) == [first] + a + b
  {
  }

  lemma {:induction false} CutSpans(s: string, lo: nat, m: nat, hi: nat)
    requires lo <= m <= hi <= |s|
    requires m == lo || m == hi || Blank(s[m]) || Blank(s[m - 1])
    ensures SpansIn(s, lo, hi) == SpansIn(s, lo, m) + SpansIn(s, m, hi)
    decreases hi - lo
  {
    if lo < m {
      if Blank(s[lo]) {
        CutSpans(s, lo + 1, m, hi);
      } else {
        SameWordEnd(s, lo, m, hi);
        var e := WordEnd(s, lo, hi);
        CutSpans(s, e, m, hi);
        PrependToBoth((lo, e), SpansIn(s, e, m), SpansIn(s, m, hi));
      }
    }
  }

  lemma {:induction false} NoWords(s: string, lo: nat, hi: nat)
    requires lo <= hi <= |s| && AllBlank(s, lo, hi)
    ensures SpansIn(s, lo, hi) == []
    decreases hi - lo
  {
    if lo < hi { NoWords(s, lo + 1, hi); }
  }

  /** A part without blanks is one word. */
  lemma OneWord(s: string, lo: nat, hi: nat)
    requires lo < hi <= |s| && forall i | lo <= i < hi :: !Blank(s[i])
    ensures SpansIn(s, lo, hi) == [(lo, hi)]
  {
    var e := WordEnd(s, lo, hi);
    assert e == hi;
  }

  ghost function Shift(spans: seq<Span>, d: nat): seq<Span> {
    seq(|spans|, i requires 0 <= i < |spans| => (spans[i].0 + d, spans[i].1 + d))
  }

  lemma ShiftFirst(first: Span, rest: seq<Span>, d: nat)
    ensures Shift([first] + rest, d) == [(first.0 + d, first.1 + d)] + Shift(rest, d)
  {
  }

  /** v is a copy of the part of s that starts at lo. */
  ghost predicate CopyOf(v: string, s: string, lo: nat) {
    lo + |v| <= |s| && forall k | 0 <= k < |v| :: v[k] == s[lo + k]
  }

  lemma ShiftedEnd(v: string, s: string, lo: nat, i: nat)
    requires CopyOf(v, s, lo) && i < |v| && !Blank(v[i])
    ensures WordEnd(v, i, |v|) + lo == WordEnd(s, lo + i, lo + |v|)
    decreases |v| - i
  {
    if i + 1 < |v| {
      assert v[i + 1] == s[lo + (i + 1)];
      if !Blank(v[i + 1]) { ShiftedEnd(v, s, lo, i + 1); }
    }
  }

  /** The words of a copied part lie where they lay in the text. */
  lemma {:induction false} ShiftedSpans(v: string, s: string, lo: nat, i: nat)
    requires CopyOf(v, s, lo) && i <= |v|
    ensures SpansIn(s, lo + i, lo + |v|) == Shift(SpansIn(v, i, |v|), lo)
    decreases |v| - i
  {
    if i < |v| {
      if Blank(v[i]) {
        ShiftedSpans(v, s, lo, i + 1);
      } else {
        var e := WordEnd(v, i, |v|);
        ShiftedEnd(v, s, lo, i);
        ShiftedSpans(v, s, lo, e);
        ShiftFirst((i, e), SpansIn(v, e, |v|), lo);
      }
    }
  }

  lemma ShiftedTexts(v: string, s: string, lo: nat, spans: seq<Span>)
    requires CopyOf(v, s, lo) && Within(v, spans)
    ensures Within(s, Shift(spans, lo)) && Texts(v, spans) == Texts(s, Shift(spans, lo))
  {
    forall k | 0 <= k < |spans| ensures Texts(v, spans)[k] == Texts(s, Shift(spans, lo))[k] {
      assert v[spans[k].0..spans[k].1] == s[lo + spans[k].0..lo + spans[k].1];
    }
  }

  lemma CopyWords(v: string, s: string, lo: nat)
    requires CopyOf(v, s, lo)
    ensures SpansIn(s, lo, lo + |v|) == Shift(SpansIn(v, 0, |v|), lo)
    ensures WordsOf(v) == Texts(s, SpansIn(s, lo, lo + |v|))
  {
    ShiftedSpans(v, s, lo, 0);
    ShiftedTexts(v, s, lo, SpansIn(v, 0, |v|));
  }

  /** The words of a part of a text are the words found there. */
  lemma PartWords(s: string, lo: nat, hi: nat)
    requires lo <= hi <= |s|
    ensures WordsOf(s[lo..hi]) == Texts(s, SpansIn(s, lo, hi))
    ensures SpansIn(s, lo, hi) == Shift(SpansIn(s[lo..hi], 0, hi - lo), lo)
  {
    CopyWords(s[lo..hi], s, lo);
  }

  /** White space between two parts of a text holds no words. */
  lemma SpansAround(s: string, m: nat, n: nat)
    requires m < n <= |s| && AllBlank(s, m, n)
    ensures SpansIn(s, 0, |s|) == SpansIn(s, 0, m) + SpansIn(s, n, |s|)
  {
    assert Blank(s[m]) && Blank(s[n - 1]);
    CutSpans(s, 0, m, |s|);
    CutSpans(s, m, n, |s|);
    NoWords(s, m, n);
  }

  lemma CopiesInside(a: string, sep: string, b: string, s: string)
    requires s == a + sep + b && AllBlank(sep, 0, |sep|)
    ensures CopyOf(a, s, 0) && CopyOf(b, s, |a| + |sep|) && AllBlank(s, |a|, |a| + |sep|)
  {
    forall i | |a| <= i < |a| + |sep| ensures Blank(s[i]) { assert s[i] == sep[i - |a|]; }
  }

  lemma TwoCopies(s: string, a: string, b: string, n: nat)
    requires |a| < n && n + |b| == |s| && CopyOf(a, s, 0) && CopyOf(b, s, n) && AllBlank(s, |a|, n)
    ensures WordsOf(s) == WordsOf(a) + WordsOf(b)
  {
    SpansAround(s, |a|, n);
    CopyWords(a, s, 0);
    CopyWords(b, s, n);
    TextsConcat(s, SpansIn(s, 0, |a|), SpansIn(s, n, |s|));
  }

  /** Text joined by white space has the words of both sides. */
  lemma JoinedWords(a: string, sep: string, b: string)
    requires |sep| > 0 && AllBlank(sep, 0, |sep|)
    ensures WordsOf(a + sep + b) == WordsOf(a) + WordsOf(b)
  {
    var s := a + sep + b;
    CopiesInside(a, sep, b, s);
    TwoCopies(s, a, b, |a| + |sep|);
  }

  // ----- Joining

  function Join(parts: seq<string>, sep: string): string {
    if parts == [] then ""
    else if |parts| == 1 then parts[0]
    else parts[0] + sep + Join(parts[1..], sep)
  }

  ghost predicate IsWord(w: string) {
    w != "" && forall i | 0 <= i < |w| :: !Blank(w[i])
  }

  lemma SingleWord(w: string)
    requires IsWord(w)
    ensures WordsOf(w) == [w]
  {
    OneWord(w, 0, |w|);
    assert w[0..|w|] == w;
  }

  /** Words joined by single spaces are found again. */
  lemma {:induction false} JoinWords(ws: seq<string>)
    requires forall w | w in ws :: IsWord(w)
    ensures WordsOf(Join(ws, " ")) == ws
    decreases |ws|
  {
    if ws == [] {
    } else if |ws| == 1 {
      SingleWord(ws[0]);
    } else {
      SingleWord(ws[0]);
      JoinWords(ws[1..]);
      JoinedWords(ws[0], " ", Join(ws[1..], " "));
    }
  }

  /** Every word found is a word. */
  lemma {:induction false} SpansAreWords(s: string, lo: nat, hi: nat)
    requires lo <= hi <= |s|
    ensures forall k | 0 <= k < |SpansIn(s, lo, hi)| :: IsWord(s[SpansIn(s, lo, hi)[k].0..SpansIn(s, lo, hi)[k].1])
    decreases hi - lo
  {
    if lo < hi {
      if Blank(s[lo]) {
        SpansAreWords(s, lo + 1, hi);
      } else {
        SpansAreWords(s, WordEnd(s, lo, hi), hi);
      }
    }
  }

  // ----- Word intervals

  /** The first b words end where word b - 1 ends. */
  lemma {:induction false} FirstWords(s: string, lo: nat, hi: nat, b: nat)
    requires lo <= hi <= |s|
    requires 0 < b <= |SpansIn(s, lo, hi)|
    ensures var end := SpansIn(s, lo, hi)[b - 1].1; lo <= end <= hi && SpansIn(s, lo, end) == SpansIn(s, lo, hi)[..b]
    decreases hi - lo
  {
    var g := SpansIn(s, lo, hi);
    assert WordAt(s, g[b - 1], lo, hi);
    var end := g[b - 1].1;
    if Blank(s[lo]) {
      FirstWords(s, lo + 1, hi, b);
    } else {
      var e := WordEnd(s, lo, hi);
      if b == 1 {
        OneWord(s, lo, e);
      } else {
        FirstWords(s, e, hi, b - 1);
        SameWordEnd(s, lo, end, hi);
        assert g[..b] == [(lo, e)] + SpansIn(s, e, hi)[..b - 1];
      }
    }
  }

  lemma SliceAfterFirst<T>(first: T, rest: seq<T>, a: nat, b: nat)
    requires 0 < a <= b <= |rest| + 1
    ensures ([first] + rest)[a..b] == rest[a - 1..b - 1]
  {
  }

  /** From the start of word a to the end of word b - 1 lie exactly the words a to b - 1. */
  lemma {:induction false} IntervalWords(s: string, lo: nat, hi: nat, a: nat, b: nat)
    requires lo <= hi <= |s|
    requires a < b <= |SpansIn(s, lo, hi)|
    ensures var g := SpansIn(s, lo, hi);
            && g[a].0 <= g[b - 1].1 <= hi
            && SpansIn(s, g[a].0, g[b - 1].1) == g[a..b]
    decreases hi - lo
  {
    if Blank(s[lo]) {
      IntervalWords(s, lo + 1, hi, a, b);
    } else if a > 0 {
      var e := WordEnd(s, lo, hi);
      var rest := SpansIn(s, e, hi);
      IntervalWords(s, e, hi, a - 1, b - 1);
      SliceAfterFirst((lo, e), rest, a, b);
    } else {
      FirstWords(s, lo, hi, b);
    }
  }

  /** Word starts and ends increase along the text. */
  lemma {:induction false} WordsAscend(s: string, lo: nat, hi: nat, i: nat, j: nat)
    requires lo <= hi <= |s|
    requires i < j < |SpansIn(s, lo, hi)|
    ensures SpansIn(s, lo, hi)[i].1 <= SpansIn(s, lo, hi)[j].0
    decreases hi - lo
  {
    if Blank(s[lo]) {
      WordsAscend(s, lo + 1, hi, i, j);
    } else {
      var e := WordEnd(s, lo, hi);
      if i > 0 {
        WordsAscend(s, e, hi, i - 1, j - 1);
      } else {
        assert SpansIn(s, lo, hi)[j] == SpansIn(s, e, hi)[j - 1];
      }
    }
  }
}
