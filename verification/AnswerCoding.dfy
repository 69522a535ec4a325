/**
 An encoding of the answer messages that can be read back, so that what AnswerRoundTrip asks of the encoding of payloads
 can be met. Every encoder takes the text that follows; that one encoded text is the beginning of another only when both
 hold the same value is enough for reading it back and for noticing every cut.
 */
module AnswerCoding {
  import opened Options
  import opened AnswerStream

  // ----- Texts and numbers

  ghost function TextCode(s: string, rest: string): (code: string)
    ensures '\n' !in rest ==> '\n' !in code
  {
    if s == "" then "." + rest
    else if s[0] == '\n' then "n" + TextCode(s[1..], rest)
    else "c" + [s[0]] + TextCode(s[1..], rest)
  }

  lemma {:induction false} TextRead(s: string, rest: string, t: string, more: string)
    requires TextCode(s, rest) <= TextCode(t, more)
    ensures s == t && rest <= more
    decreases |s|
  {
    var a, b := TextCode(s, rest), TextCode(t, more);
    assert a[0] == b[0];
    if s == "" {
      assert a[1..] <= b[1..];
    } else if s[0] == '\n' {
      assert a[1..] <= b[1..];
      TextRead(s[1..], rest, t[1..], more);
      assert s == [s[0]] + s[1..] && t == [t[0]] + t[1..];
    } else {
      assert a[1] == b[1] && a[2..] <= b[2..];
      TextRead(s[1..], rest, t[1..], more);
      assert s == [s[0]] + s[1..] && t == [t[0]] + t[1..];
    }
  }

  ghost function NumberCode(n: nat, rest: string): (code: string)
    ensures '\n' !in rest ==> '\n' !in code
  {
    if n == 0 then "." + rest else "1" + NumberCode(n - 1, rest)
  }

  lemma {:induction false} NumberRead(n: nat, rest: string, m: nat, more: string)
    requires NumberCode(n, rest) <= NumberCode(m, more)
    ensures n == m && rest <= more
    decreases n
  {
    var a, b := NumberCode(n, rest), NumberCode(m, more);
    assert a[0] == b[0] && a[1..] <= b[1..];
    if n > 0 { NumberRead(n - 1, rest, m - 1, more); }
  }

  // ----- Sources

  /** The numbers of a source. */
  ghost function Numbers(s: Source): seq<nat> {
    [if s.chunkIndex < 0 then 0 else s.chunkIndex, if s.chunkIndex < 0 then -s.chunkIndex else 0,
     s.startOffset, s.endOffset, s.pageStart, s.pageEnd]
  }

  lemma SameSource(s: Source, t: Source)
    requires s.text == t.text && Numbers(s) == Numbers(t)
    ensures s == t
  {
    assert forall i | 0 <= i < 6 :: Numbers(s)[i] == Numbers(t)[i];
  }

  ghost function NumbersCode(ns: seq<nat>, rest: string): (code: string)
    ensures '\n' !in rest ==> '\n' !in code
  {
    if ns == [] then rest else NumberCode(ns[0], NumbersCode(ns[1..], rest))
  }

  lemma {:induction false} NumbersRead(ns: seq<nat>, rest: string, ms: seq<nat>, more: string)
    requires |ns| == |ms| && NumbersCode(ns, rest) <= NumbersCode(ms, more)
    ensures ns == ms && rest <= more
    decreases |ns|
  {
    if ns != [] {
      NumberRead(ns[0], NumbersCode(ns[1..], rest), ms[0], NumbersCode(ms[1..], more));
      NumbersRead(ns[1..], rest, ms[1..], more);
      assert ns == [ns[0]] + ns[1..] && ms == [ms[0]] + ms[1..];
    }
  }

  ghost function SourceCode(s: Source, rest: string): (code: string)
    ensures '\n' !in rest ==> '\n' !in code
  {
    TextCode(s.text, NumbersCode(Numbers(s), rest))
  }

  lemma SourceRead(s: Source, rest: string, t: Source, more: string)
    requires SourceCode(s, rest) <= SourceCode(t, more)
    ensures s == t && rest <= more
  {
    TextRead(s.text, NumbersCode(Numbers(s), rest), t.text, NumbersCode(Numbers(t), more));
    NumbersRead(Numbers(s), rest, Numbers(t), more);
    SameSource(s, t);
  }

  ghost function SourcesCode(ss: seq<Source>, rest: string): (code: string)
    ensures '\n' !in rest ==> '\n' !in code
  {
    if ss == [] then "." + rest else "s" + SourceCode(ss[0], SourcesCode(ss[1..], rest))
  }

  lemma {:induction false} SourcesRead(ss: seq<Source>, rest: string, ts: seq<Source>, more: string)
    requires SourcesCode(ss, rest) <= SourcesCode(ts, more)
    ensures ss == ts && rest <= more
    decreases |ss|
  {
    var a, b := SourcesCode(ss, rest), SourcesCode(ts, more);
    assert a[0] == b[0] && a[1..] <= b[1..];
    if ss != [] {
      SourceRead(ss[0], SourcesCode(ss[1..], rest), ts[0], SourcesCode(ts[1..], more));
      SourcesRead(ss[1..], rest, ts[1..], more);
      assert ss == [ss[0]] + ss[1..] && ts == [ts[0]] + ts[1..];
    }
  }

  // ----- Messages

  ghost function QuestionCode(q: Question, rest: string): (code: string)
    ensures '\n' !in rest ==> '\n' !in code
  {
    TextCode(q.owner, TextCode(q.document, TextCode(q.question, TextCode(q.answer, SourcesCode(q.sources, rest)))))
  }

  lemma QuestionRead(p: Question, rest: string, q: Question, more: string)
    requires QuestionCode(p, rest) <= QuestionCode(q, more)
    ensures p == q && rest <= more
  {
    var a3, b3 := SourcesCode(p.sources, rest), SourcesCode(q.sources, more);
    var a2, b2 := TextCode(p.answer, a3), TextCode(q.answer, b3);
    var a1, b1 := TextCode(p.question, a2), TextCode(q.question, b2);
    TextRead(p.owner, TextCode(p.document, a1), q.owner, TextCode(q.document, b1));
    TextRead(p.document, a1, q.document, b1);
    TextRead(p.question, a2, q.question, b2);
    TextRead(p.answer, a3, q.answer, b3);
    SourcesRead(p.sources, rest, q.sources, more);
  }

  ghost function CodeNumber(code: FailureCode): nat {
    match code
    case GenerationTimeout => 0
    case GenerationFailed => 1
    case HistoryFailed => 2
  }

  ghost function Encode(m: Message): (code: string)
    ensures code != "" && '\n' !in code
  {
    match m
    case Token(text) => "t" + TextCode(text, "")
    case Sources(sources) => "s" + SourcesCode(sources, "")
    case Failure(code) => "f" + NumberCode(CodeNumber(code), "")
    case History(saved) => "h" + QuestionCode(saved, "")
    case Done(ok) => "d" + NumberCode(if ok then 1 else 0, "")
  }

  /** One encoded message is the beginning of another only when they are the same message. */
  lemma MessageRead(m: Message, other: Message)
    requires Encode(m) <= Encode(other)
    ensures m == other
  {
    var a, b := Encode(m), Encode(other);
    assert a[0] == b[0] && a[1..] <= b[1..];
    match m
    case Token(text) => TextRead(text, "", other.text, "");
    case Sources(sources) => SourcesRead(sources, "", other.sources, "");
    case Failure(code) => NumberRead(CodeNumber(code), "", CodeNumber(other.code), "");
    case History(saved) => QuestionRead(saved, "", other.saved, "");
    case Done(ok) => NumberRead(if ok then 1 else 0, "", if other.ok then 1 else 0, "");
  }

  /** A saved question is written without a `history` key around it. */
  ghost function PayloadOf(m: Message): Payload {
    var none := Payload(None, None, None, None, None);
    match m
    case Token(text) => none.(text := Some(text))
    case Sources(sources) => none.(sources := Some(sources))
    case Failure(code) => none.(message := Some(code.Message()))
    case History(_) => none
    case Done(ok) => none.(ok := Some(ok))
  }

  ghost function Decode(code: string): Option<Payload> {
    if exists m :: Encode(m) == code then
      var m :| Encode(m) == code;
      Some(PayloadOf(m))
    else None
  }

  /** There is an encoding as AnswerRoundTrip asks for. */
  lemma EncodingExists()
    ensures Faithful(Encode, Decode)
  {
    forall m: Message ensures Encodes(m, Encode, Decode) {
      assert Decode(Encode(m)) == Some(PayloadOf(m)) by {
        var other :| Encode(other) == Encode(m) && Decode(Encode(m)) == Some(PayloadOf(other));
        MessageRead(other, m);
      }
      forall cut: string | cut < Encode(m) && cut != "" ensures Decode(cut) == None {
        if exists other :: Encode(other) == cut {
          var other :| Encode(other) == cut;
          MessageRead(other, m);
        }
      }
    }
  }
}
