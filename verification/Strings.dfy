/** Splitting text at a separator, as Go's strings.Split and JavaScript's split do. */
module Strings {

  /** The pieces of s between occurrences of c; always at least one. */
  function Split(s: string, c: char): (pieces: seq<string>)
    ensures pieces != []
    ensures forall p | p in pieces :: c !in p
  {
    if s == "" then [""]
    else
      var rest := Split(s[1..], c);
      if s[0] == c then [""] + rest else [[s[0]] + rest[0]] + rest[1..]
  }

  lemma {:induction false} SplitNone(s: string, c: char)
    requires c !in s
    ensures Split(s, c) == [s]
  {
    if s != "" {
      SplitNone(s[1..], c);
      assert s == [s[0]] + s[1..];
    }
  }

  /** The text before the first separator is the first piece. */
  lemma {:induction false} SplitFirst(a: string, c: char, b: string)
    requires c !in a
    ensures Split(a + [c] + b, c) == [a] + Split(b, c)
  {
    var s := a + [c] + b;
    if a == "" {
      assert s[1..] == b;
    } else {
      SplitFirst(a[1..], c, b);
      assert s[1..] == a[1..] + [c] + b;
      assert a == [a[0]] + a[1..];
    }
  }

  /** The first piece is what comes before the first separator. */
  lemma {:induction false} FirstPiece(s: string, c: char) returns (rest: string)
    ensures |Split(s, c)| == 1 ==> s == Split(s, c)[0]
    ensures |Split(s, c)| > 1 ==> s == Split(s, c)[0] + [c] + rest && Split(rest, c) == Split(s, c)[1..]
  {
    rest := "";
    if s != "" {
      if s[0] == c {
        rest := s[1..];
      } else {
        rest := FirstPiece(s[1..], c);
      }
    }
  }
}
