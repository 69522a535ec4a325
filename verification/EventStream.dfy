/**
 The text of the answer stream, a subset of server-sent events (sections 9.2.5 and 9.2.6 of the WHATWG HTML standard):
 how the API writes it (api/documents.go) and how the page takes it apart again while it arrives in pieces
 (frontend/src/hooks/use-answer-stream.ts).
 */
module EventStream {
  import opened Options
  import opened Strings

  // ----- Splitting at blank lines

  predicate StartsBlank(s: string) {
    |s| >= 2 && s[0] == '\n' && s[1] == '\n'
  }

  /** The pieces between "\n\n", found from left to right. */
  function SplitBlank(s: string): (pieces: seq<string>)
    ensures pieces != []
  {
    if s == "" then [""]
    else if StartsBlank(s) then [""] + SplitBlank(s[2..])
    else
      var rest := SplitBlank(s[1..]);
      [[s[0]] + rest[0]] + rest[1..]
  }

  function Last<T>(s: seq<T>): T
    requires s != []
  {
    s[|s| - 1]
  }

  function Front<T>(s: seq<T>): (front: seq<T>)
    requires s != []
    ensures s == front + [Last(s)]
  {
    s[..|s| - 1]
  }

  function Concat(parts: seq<string>): string {
    if parts == [] then "" else Concat(Front(parts)) + Last(parts)
  }

  lemma ConcatAppend(parts: seq<string>, part: string)
    ensures Concat(parts + [part]) == Concat(parts) + part
  {
    assert Front(parts + [part]) == parts;
  }

  lemma Regroup(a: string, b: string, c: string)
    ensures a + b + c == a + (b + c)
  {
  }

  lemma LastOfBoth<T>(a: seq<T>, b: seq<T>)
    ensures b == [] ==> a + b == a
    ensures b != [] ==> a + b == (a + Front(b)) + [Last(b)]
  {
  }

  lemma {:induction false} ConcatBoth(a: seq<string>, b: seq<string>)
    ensures Concat(a + b) == Concat(a) + Concat(b)
    decreases |b|
  {
    LastOfBoth(a, b);
    if b != [] {
      ConcatBoth(a, Front(b));
      ConcatAppend(a + Front(b), Last(b));
      Regroup(Concat(a), Concat(Front(b)), Last(b));
    }
  }

  /** A piece that stays open can be split again when more text has arrived: splitting does not depend on where the text
      was cut. */
  lemma {:induction false} SplitMore(a: string, b: string)
    ensures SplitBlank(a + b) == Front(SplitBlank(a)) + SplitBlank(Last(SplitBlank(a)) + b)
    decreases |a|
  {
    if a == "" {
      assert a + b == b;
      assert "" + b == b;
    } else if StartsBlank(a) {
      SplitMore(a[2..], b);
      assert (a + b)[2..] == a[2..] + b;
      AfterBlank(a, b);
    } else if |a| == 1 {
      assert a[1..] == "" && a == [a[0]] + "";
      assert SplitBlank(a) == [a];
      assert Front([a]) == [];
    } else {
      SplitMore(a[1..], b);
      assert (a + b)[1..] == a[1..] + b;
      OpenFirst(a, b);
    }
  }

  /** A blank line before the pieces. */
  lemma AfterBlank(a: string, b: string)
    requires StartsBlank(a) && (a + b)[2..] == a[2..] + b
    requires SplitBlank(a[2..] + b) == Front(SplitBlank(a[2..])) + SplitBlank(Last(SplitBlank(a[2..])) + b)
    ensures SplitBlank(a + b) == Front(SplitBlank(a)) + SplitBlank(Last(SplitBlank(a)) + b)
  {
    assert SplitBlank(a) == [""] + SplitBlank(a[2..]);
    assert Last(SplitBlank(a)) == Last(SplitBlank(a[2..]));
  }

  /** One more character before the first piece. */
  lemma OpenFirst(a: string, b: string)
    requires |a| >= 2 && !StartsBlank(a)
    requires SplitBlank(a[1..] + b) == Front(SplitBlank(a[1..])) + SplitBlank(Last(SplitBlank(a[1..])) + b)
    requires (a + b)[1..] == a[1..] + b
    ensures SplitBlank(a + b) == Front(SplitBlank(a)) + SplitBlank(Last(SplitBlank(a)) + b)
  {
    var rest := SplitBlank(a[1..]);
    if |rest| == 1 {
      WholePiece(a[1..]);
      OpenWhole(a);
    } else {
      OpenLonger(a, b, rest);
    }
  }

  lemma OpenWhole(a: string)
    requires |a| >= 2 && !StartsBlank(a) && SplitBlank(a[1..]) == [a[1..]]
    ensures SplitBlank(a) == [a]
    ensures Front(SplitBlank(a)) == [] && Last(SplitBlank(a)) == a
  {
    assert a == [a[0]] + a[1..];
  }

  lemma ReplaceFirst<T>(first: T, rest: seq<T>, more: seq<T>)
    requires |rest| > 1
    ensures (Front(rest) + more)[0] == rest[0]
    ensures [first] + (Front(rest) + more)[1..] == Front([first] + rest[1..]) + more
    ensures Last([first] + rest[1..]) == Last(rest)
  {
    assert Front([first] + rest[1..]) == [first] + Front(rest)[1..];
    assert (Front(rest) + more)[1..] == Front(rest)[1..] + more;
  }

  lemma OpenLonger(a: string, b: string, rest: seq<string>)
    requires |a| >= 2 && !StartsBlank(a) && rest == SplitBlank(a[1..]) && |rest| > 1 && (a + b)[1..] == a[1..] + b
    requires SplitBlank(a[1..] + b) == Front(rest) + SplitBlank(Last(rest) + b)
    ensures SplitBlank(a + b) == Front(SplitBlank(a)) + SplitBlank(Last(SplitBlank(a)) + b)
  {
    ReplaceFirst([a[0]] + rest[0], rest, SplitBlank(Last(rest) + b));
  }

  lemma {:induction false} WholePiece(s: string)
    requires |SplitBlank(s)| == 1
    ensures SplitBlank(s) == [s]
  {
    if s != "" {
      WholePiece(s[1..]);
      assert s == [s[0]] + s[1..];
    }
  }

  /** The pieces with "\n\n" between them. */
  ghost function Rejoined(pieces: seq<string>): string {
    if pieces == [] then "" else if |pieces| == 1 then pieces[0] else pieces[0] + "\n\n" + Rejoined(pieces[1..])
  }

  lemma RejoinedFirst(c: char, pieces: seq<string>)
    requires pieces != []
    ensures Rejoined([[c] + pieces[0]] + pieces[1..]) == [c] + Rejoined(pieces)
  {
    var more := [[c] + pieces[0]] + pieces[1..];
    if |pieces| > 1 {
      assert more[1..] == pieces[1..];
      assert ([c] + pieces[0]) + "\n\n" + Rejoined(pieces[1..]) == [c] + (pieces[0] + "\n\n" + Rejoined(pieces[1..]));
    }
  }

  /** Splitting loses nothing, and leaves no blank line in a piece. */
  lemma {:induction false} SplitLoses(s: string)
    ensures Rejoined(SplitBlank(s)) == s
    ensures forall p | p in SplitBlank(s) :: NoBlankLine(p)
    ensures SplitBlank(s)[0] <= s
    decreases |s|
  {
    if s != "" {
      if StartsBlank(s) {
        SplitLoses(s[2..]);
        assert s == "" + "\n\n" + s[2..];
        assert ([""] + SplitBlank(s[2..]))[1..] == SplitBlank(s[2..]);
      } else {
        var rest := SplitBlank(s[1..]);
        SplitLoses(s[1..]);
        RejoinedFirst(s[0], rest);
        assert s == [s[0]] + s[1..];
        FirstPieceOpen(s, rest[0]);
      }
    }
  }

  lemma FirstPieceOpen(s: string, piece: string)
    requires s != "" && !StartsBlank(s) && piece <= s[1..] && NoBlankLine(piece)
    ensures NoBlankLine([s[0]] + piece) && [s[0]] + piece <= s
  {
    var p := [s[0]] + piece;
    forall i | 0 <= i < |p| - 1 ensures !LineEndsAt(p, i) {
      if i == 0 {
        assert p[1] == piece[0] == s[1];
      } else {
        assert !LineEndsAt(piece, i - 1);
      }
    }
  }

  /** No two line ends in a row. */
  ghost predicate NoBlankLine(s: string) {
    forall i | 0 <= i < |s| - 1 :: !LineEndsAt(s, i)
  }

  ghost predicate LineEndsAt(s: string, i: nat)
    requires i + 1 < |s|
  {
    s[i] == '\n' && s[i + 1] == '\n'
  }

  lemma {:induction false} OnePiece(s: string)
    requires NoBlankLine(s)
    ensures SplitBlank(s) == [s]
  {
    if s != "" {
      if |s| >= 2 { assert !LineEndsAt(s, 0); }
      forall i | 0 <= i < |s[1..]| - 1 ensures !LineEndsAt(s[1..], i) { assert !LineEndsAt(s, i + 1); }
      OnePiece(s[1..]);
      assert s == [s[0]] + s[1..];
    }
  }

  /** A block without blank lines is found again. */
  lemma BlockFirst(block: string, rest: string)
    requires NoBlankLine(block) && block != "" && Last(block) != '\n'
    ensures SplitBlank(block + "\n\n" + rest) == [block] + SplitBlank(rest)
  {
    var s := "\n\n" + rest;
    assert block + "\n\n" + rest == block + s;
    assert s[2..] == rest;
    OnePiece(block);
    SplitMore(block, s);
    EndsBlock(block, s);
  }

  lemma {:induction false} EndsBlock(block: string, s: string)
    requires StartsBlank(s) && NoBlankLine(block) && (block != "" ==> Last(block) != '\n')
    ensures SplitBlank(block + s) == [block] + SplitBlank(s[2..])
  {
    if block == "" {
      assert "" + s == s;
    } else {
      var rest := block[1..];
      forall i | 0 <= i < |rest| - 1 ensures !LineEndsAt(rest, i) { assert !LineEndsAt(block, i + 1); }
      EndsBlock(rest, s);
      assert (block + s)[1..] == rest + s;
      if StartsBlank(block + s) {
        assert |block| > 1 ==> LineEndsAt(block, 0);
      }
      assert block == [block[0]] + rest;
    }
  }

  // ----- Fields of a block

  function FirstAfter(lines: seq<string>, field: string): Option<string> {
    if lines == [] then None
    else if field <= lines[0] then Some(lines[0][|field|..])
    else FirstAfter(lines[1..], field)
  }

  /** The rest of the first line that starts with the field's name. */
  function Field(block: string, field: string): Option<string> {
    FirstAfter(Split(block, '\n'), field)
  }

  lemma {:induction false} FirstOfLines(lines: seq<string>, field: string) returns (i: nat)
    ensures FirstAfter(lines, field).None? ==> forall line | line in lines :: !(field <= line)
    ensures FirstAfter(lines, field).Some? ==>
              && i < |lines| && lines[i] == field + FirstAfter(lines, field).value
              && forall j | 0 <= j < i :: !(field <= lines[j])
    decreases |lines|
  {
    i := 0;
    if lines != [] && !(field <= lines[0]) {
      var k := FirstOfLines(lines[1..], field);
      i := k + 1;
      assert lines == [lines[0]] + lines[1..];
    }
  }

  /** A field is missing only if no line starts with its name; otherwise it is what follows the name in the first line
      that does. */
  lemma FieldIsFirst(block: string, field: string) returns (i: nat)
    ensures var lines := Split(block, '\n');
            match Field(block, field)
            case None => forall line | line in lines :: !(field <= line)
            case Some(value) =>
              i < |lines| && lines[i] == field + value && forall j | 0 <= j < i :: !(field <= lines[j])
  {
    i := FirstOfLines(Split(block, '\n'), field);
  }

  function BlockText(kind: string, data: string): string {
    "event: " + kind + "\ndata: " + data
  }

  lemma FirstLine(line: string, rest: seq<string>, field: string)
    requires field <= line
    ensures FirstAfter([line] + rest, field) == Some(line[|field|..])
  {
  }

  lemma NextLine(line: string, rest: seq<string>, field: string)
    requires field != "" && (line == "" || line[0] != field[0])
    ensures FirstAfter([line] + rest, field) == FirstAfter(rest, field)
  {
    assert ([line] + rest)[1..] == rest;
    assert !(field <= line);
  }

  /** The lines of a block, whatever follows them. */
  lemma FieldLines(kind: string, line: string, rest: seq<string>)
    requires line == "" || line[0] == 'd'
    ensures FirstAfter(["event: " + kind] + ([line] + rest), "event: ") == Some(kind)
    ensures FirstAfter(["event: " + kind] + ([line] + rest), "data: ")
            == if "data: " <= line then Some(line[6..]) else FirstAfter(rest, "data: ")
  {
    FirstLine("event: " + kind, [line] + rest, "event: ");
    assert ("event: " + kind)[7..] == kind;
    NextLine("event: " + kind, [line] + rest, "data: ");
    assert ([line] + rest)[1..] == rest;
  }

  /** Kind and data without line ends are read back from a block, also when a line end follows. */
  lemma FieldsRoundTrip(kind: string, data: string)
    requires '\n' !in kind && '\n' !in data
    ensures Field(BlockText(kind, data), "event: ") == Some(kind)
            && Field(BlockText(kind, data), "data: ") == Some(data)
    ensures Field(BlockText(kind, data) + "\n", "event: ") == Some(kind)
            && Field(BlockText(kind, data) + "\n", "data: ") == Some(data)
  {
    var first, second := "event: " + kind, "data: " + data;
    LinesOf(first, second);
    assert BlockText(kind, data) == first + ['\n'] + second;
    assert BlockText(kind, data) + "\n" == first + ['\n'] + (second + ['\n'] + "");
    FieldLines(kind, second, []);
    FieldLines(kind, second, [""]);
    assert second[6..] == data;
    assert [first] + ([second] + []) == [first, second];
    assert [first] + ([second] + [""]) == [first, second, ""];
  }

  lemma LinesOf(first: string, second: string)
    requires '\n' !in first && '\n' !in second
    ensures Split(first + ['\n'] + second, '\n') == [first, second]
    ensures Split(first + ['\n'] + (second + ['\n'] + ""), '\n') == [first, second, ""]
  {
    SplitFirst(first, '\n', second);
    SplitNone(second, '\n');
    SplitFirst(first, '\n', second + ['\n'] + "");
    SplitFirst(second, '\n', "");
  }

  /** A block cut short: no data yet, or a proper prefix of the data. */
  lemma CutBlock(kind: string, data: string, cut: string)
    requires '\n' !in kind && '\n' !in data && cut < BlockText(kind, data)
    ensures Field(cut, "data: ") == None
            || (Field(cut, "data: ").Some? && Field(cut, "data: ").value < data && Field(cut, "event: ") == Some(kind))
  {
    var first, second := "event: " + kind, "data: " + data;
    assert BlockText(kind, data) == first + ['\n'] + second;
    if |cut| <= |first| {
      assert cut == first[..|cut|];
      assert '\n' !in cut;
      SplitNone(cut, '\n');
      NextLine(cut, [], "data: ");
      assert [cut] + [] == [cut];
    } else {
      var tail := cut[|first| + 1..];
      assert cut == first + ['\n'] + tail;
      assert tail == second[..|tail|];
      assert '\n' !in tail;
      LinesOf(first, tail);
      FieldLines(kind, tail, []);
      assert [first] + ([tail] + []) == [first, tail];
      if "data: " <= tail {
        assert tail[6..] == data[..|tail| - 6];
      }
    }
  }

  lemma BlockShape(kind: string, data: string)
    requires '\n' !in kind && '\n' !in data
    ensures NoBlankLine(BlockText(kind, data) + "\n") && NoBlankLine(BlockText(kind, data))
    ensures BlockText(kind, data)[0] == 'e' && Last(BlockText(kind, data)) != '\n'
  {
    var block, at := BlockText(kind, data) + "\n", 7 + |kind|;
    forall i | 0 <= i < |block| - 1 ensures i != at ==> block[i] != '\n' {
      if i < 7 {
        assert block[i] == "event: "[i];
      } else if i < at {
        assert block[i] == kind[i - 7];
      } else if at < i < at + 7 {
        assert block[i] == "\ndata: "[i - at];
      } else if i > at {
        assert block[i] == data[i - at - 7];
      }
    }
    assert block[at + 1] == 'd';
    forall i | 0 <= i < |block| - 1 ensures !LineEndsAt(block, i) {}
    forall i | 0 <= i < |block| - 2 ensures !LineEndsAt(BlockText(kind, data), i) { assert !LineEndsAt(block, i); }
  }
}
