/** What the page shows of an answer, compared with what the API wrote and saved. */
module AnswerRoundTrip {
  import opened Options
  import opened EventStream
  import opened AnswerStream
  import opened AnswerPage

  // ----- Messages instead of text

  /** The effect that a message is meant to have on the page. */
  ghost function Meaning(v: View, m: Message): View {
    match m
    case Token(text) => v.(answer := v.answer + text)
    case Sources(sources) => v.(sources := sources)
    case Failure(code) => v.(streamError := Some(code.Message()))
    case History(_) => v
    case Done(ok) => v.(receivedDone := true, successful := ok)
  }

  ghost function Meanings(v: View, ms: seq<Message>, n: nat): View
    requires n <= |ms|
  {
    if n == 0 then v else Meaning(Meanings(v, ms, n - 1), ms[n - 1])
  }

  lemma {:induction false} NothingThrown(v: View, ms: seq<Message>, n: nat)
    requires n <= |ms| && !v.thrown
    ensures !Meanings(v, ms, n).thrown && Meanings(v, ms, n).history == v.history
  {
    if n > 0 { NothingThrown(v, ms, n - 1); }
  }

  function BlockOf(m: Message, encode: Encoder): string {
    BlockText(m.Kind(), encode(m))
  }

  /** A message's kind stays on its line and is told from the others. */
  lemma KindIsOneLine(m: Message)
    ensures '\n' !in m.Kind()
  {
  }

  /** Once parsed, a payload has the effect its message was meant to have. */
  lemma AppliedAsMeant(v: View, m: Message, p: Payload)
    requires Reads(m, p)
    ensures Apply(v, Some(m.Kind()), p) == Meaning(v, m)
  {
  }

  lemma BlockRead(v: View, m: Message, encode: Encoder, decode: Decoder)
    requires Faithful(encode, decode) && !v.thrown
    ensures Dispatch(v, BlockOf(m, encode), decode) == Meaning(v, m)
    ensures Dispatch(v, BlockOf(m, encode) + "\n", decode) == Meaning(v, m)
  {
    assert Encodes(m, encode, decode);
    KindIsOneLine(m);
    FieldsRoundTrip(m.Kind(), encode(m));
    AppliedAsMeant(v, m, decode(encode(m)).value);
  }

  ghost function Blocks(ms: seq<Message>, n: nat, encode: Encoder): seq<string>
    requires n <= |ms|
  {
    if n == 0 then [] else Blocks(ms, n - 1, encode) + [BlockOf(ms[n - 1], encode)]
  }

  /** The first n blocks have the effect of the first n messages. */
  ghost predicate ReadSoFar(ms: seq<Message>, n: nat, encode: Encoder, decode: Decoder)
    requires n <= |ms|
  {
    Run(START, Blocks(ms, n, encode), decode) == Meanings(START, ms, n)
  }

  lemma NothingRead(ms: seq<Message>, encode: Encoder, decode: Decoder)
    ensures ReadSoFar(ms, 0, encode, decode)
  {
  }

  lemma OneMoreRead(ms: seq<Message>, before: nat, n: nat, encode: Encoder, decode: Decoder)
    requires Faithful(encode, decode) && before + 1 == n <= |ms| && ReadSoFar(ms, before, encode, decode)
    ensures ReadSoFar(ms, n, encode, decode)
  {
    NothingThrown(START, ms, before);
    var m := ms[before];
    MeaningsStep(START, ms, before, n);
    BlocksStep(ms, before, n, encode);
    BlockRead(Meanings(START, ms, before), m, encode, decode);
    RunAppend(START, Blocks(ms, before, encode), BlockOf(m, encode), decode);
  }

  lemma MeaningsStep(v: View, ms: seq<Message>, before: nat, n: nat)
    requires before + 1 == n <= |ms|
    ensures Meanings(v, ms, n) == Meaning(Meanings(v, ms, before), ms[before])
  {
  }

  lemma BlocksStep(ms: seq<Message>, before: nat, n: nat, encode: Encoder)
    requires before + 1 == n <= |ms|
    ensures Blocks(ms, n, encode) == Blocks(ms, before, encode) + [BlockOf(ms[before], encode)]
  {
  }

  lemma {:induction false} BlocksRead(ms: seq<Message>, n: nat, encode: Encoder, decode: Decoder)
    requires Faithful(encode, decode) && n <= |ms|
    ensures ReadSoFar(ms, n, encode, decode)
    decreases n
  {
    if n == 0 {
      NothingRead(ms, encode, decode);
    } else {
      var before: nat := n - 1;
      BlocksRead(ms, before, encode, decode);
      OneMoreRead(ms, before, n, encode, decode);
    }
  }

  lemma TextStep(ms: seq<Message>, n: nat, encode: Encoder)
    requires 0 < n <= |ms|
    ensures Text(ms[..n], encode) == Text(ms[..n - 1], encode) + (BlockOf(ms[n - 1], encode) + "\n\n")
  {
    TextUpTo(ms, n - 1, encode);
  }

  lemma WrittenBlock(m: Message, rest: string, encode: Encoder, decode: Decoder)
    requires Faithful(encode, decode)
    ensures SplitBlank(BlockOf(m, encode) + "\n\n" + rest) == [BlockOf(m, encode)] + SplitBlank(rest)
  {
    assert Encodes(m, encode, decode);
    KindIsOneLine(m);
    BlockShape(m.Kind(), encode(m));
    BlockFirst(BlockOf(m, encode), rest);
  }

  /** The blocks written are the blocks found, and what follows is split by itself. */
  lemma {:induction false} WrittenBlocks(ms: seq<Message>, n: nat, rest: string, encode: Encoder, decode: Decoder)
    requires Faithful(encode, decode) && n <= |ms|
    ensures SplitBlank(Text(ms[..n], encode) + rest) == Blocks(ms, n, encode) + SplitBlank(rest)
    decreases n
  {
    if n == 0 {
      NoText(ms, encode);
      assert "" + rest == rest;
    } else {
      var before: nat := n - 1;
      var block := BlockOf(ms[before], encode);
      var more := block + "\n\n" + rest;
      TextStep(ms, n, encode);
      WrittenBlock(ms[before], rest, encode, decode);
      WrittenBlocks(ms, before, more, encode, decode);
      Regroup(Text(ms[..before], encode), block + "\n\n", rest);
      AddFirst(Blocks(ms, before, encode), block, SplitBlank(rest));
      BlocksStep(ms, before, n, encode);
    }
  }

  lemma AddFirst(read: seq<string>, block: string, more: seq<string>)
    ensures read + ([block] + more) == (read + [block]) + more
  {
  }

  lemma NoText(ms: seq<Message>, encode: Encoder)
    ensures Text(ms[..0], encode) == ""
  {
    assert Wires(ms[..0], encode) == [];
  }

  // ----- A text that was cut off

  /** Where a text was cut: after k whole messages, inside the next. */
  lemma {:induction false} CutAt(ms: seq<Message>, n: nat, cut: string, encode: Encoder) returns (k: nat, part: string)
    requires n <= |ms| && cut <= Text(ms[..n], encode)
    ensures k <= n && cut == Text(ms[..k], encode) + part
    ensures if k < n then part < BlockOf(ms[k], encode) + "\n\n" else part == ""
    ensures cut == Text(ms[..n], encode) ==> k == n
    decreases n
  {
    if cut == Text(ms[..n], encode) {
      return n, "";
    }
    if n == 0 {
      NoText(ms, encode);
    } else {
      TextStep(ms, n, encode);
      CutBehind(Text(ms[..n - 1], encode), BlockOf(ms[n - 1], encode) + "\n\n", cut);
      if |cut| < |Text(ms[..n - 1], encode)| {
        k, part := CutAt(ms, n - 1, cut, encode);
      } else {
        k, part := n - 1, cut[|Text(ms[..n - 1], encode)|..];
      }
    }
  }

  lemma CutBehind(before: string, next: string, cut: string)
    requires cut < before + next
    ensures if |cut| < |before| then cut < before else cut == before + cut[|before|..] && cut[|before|..] < next
  {
  }

  /** What is left of a message that was cut off has its whole effect, or none, or is found to be broken. */
  lemma CutRead(v: View, m: Message, part: string, encode: Encoder, decode: Decoder)
    requires Faithful(encode, decode) && !v.thrown && part < BlockOf(m, encode) + "\n\n"
    ensures SplitBlank(part) == [part]
    ensures OnlySpace(part) <==> part == ""
    ensures Dispatch(v, part, decode) == v || Dispatch(v, part, decode).thrown
            || Dispatch(v, part, decode) == Meaning(v, m)
  {
    var block := BlockOf(m, encode);
    assert Encodes(m, encode, decode);
    KindIsOneLine(m);
    BlockShape(m.Kind(), encode(m));
    assert part == (block + "\n")[..|part|];
    assert NoBlankLine(part) by {
      forall i | 0 <= i < |part| - 1 ensures !LineEndsAt(part, i) { assert !LineEndsAt(block + "\n", i); }
    }
    OnePiece(part);
    assert part != "" ==> part[0] == 'e';
    if |part| < |block| {
      assert part < block;
      CutBlock(m.Kind(), encode(m), part);
    } else {
      assert part == block || part == block + "\n";
      BlockRead(v, m, encode, decode);
    }
  }

  /** Wherever the text is cut, the page ends up as after some of the messages, or finds the text broken. */
  lemma CutText(ms: seq<Message>, cut: string, encode: Encoder, decode: Decoder) returns (n: nat)
    requires Faithful(encode, decode) && cut <= Text(ms, encode)
    ensures n <= |ms|
    ensures var v := Run(START, Delivered(cut), decode); v.thrown || v == Meanings(START, ms, n)
    ensures cut == Text(ms, encode) ==> n == |ms| && Run(START, Delivered(cut), decode) == Meanings(START, ms, n)
    ensures Run(START, Delivered(cut), decode).history == None
  {
    assert ms[..|ms|] == ms;
    var k, part := CutAt(ms, |ms|, cut, encode);
    WrittenBlocks(ms, k, part, encode, decode);
    BlocksRead(ms, k, encode, decode);
    NothingThrown(START, ms, k);
    n := k;
    if k < |ms| {
      n := CutInside(ms, k, cut, part, encode, decode);
    } else {
      assert SplitBlank("") == [""];
      LastBlock(cut, Blocks(ms, k, encode), "", decode);
    }
  }

  lemma CutInside(ms: seq<Message>, k: nat, cut: string, part: string, encode: Encoder, decode: Decoder)
    returns (n: nat)
    requires Faithful(encode, decode) && k < |ms| && part < BlockOf(ms[k], encode) + "\n\n"
    requires SplitBlank(cut) == Blocks(ms, k, encode) + SplitBlank(part)
    requires Run(START, Blocks(ms, k, encode), decode) == Meanings(START, ms, k)
    requires !Meanings(START, ms, k).thrown && Meanings(START, ms, k).history == None
    ensures k <= n <= k + 1
    ensures var v := Run(START, Delivered(cut), decode); (v.thrown || v == Meanings(START, ms, n)) && v.history == None
  {
    var v := Meanings(START, ms, k);
    CutRead(v, ms[k], part, encode, decode);
    LastBlock(cut, Blocks(ms, k, encode), part, decode);
    n := if part != "" && Dispatch(v, part, decode) == Meaning(v, ms[k]) then k + 1 else k;
    assert Meanings(START, ms, k + 1) == Meaning(v, ms[k]);
    CutKeepsHistory(v, ms[k], part, decode);
  }

  /** Only a parsed `history` key changes the history. */
  lemma CutKeepsHistory(v: View, m: Message, part: string, decode: Decoder)
    requires v.history == None
    requires Dispatch(v, part, decode) == v || Dispatch(v, part, decode).thrown
             || Dispatch(v, part, decode) == Meaning(v, m)
    requires !v.thrown
    ensures Dispatch(v, part, decode).history == None
  {
  }

  // ----- Shown and saved

  lemma {:induction false} TokensMean(events: seq<AnswerEvent>, n: nat, ms: seq<Message>)
    requires n <= |events| && Tokens(events, n) <= ms
    ensures Meanings(START, ms, |Tokens(events, n)|) == START.(answer := AnswerText(events, n))
    ensures forall i | 0 <= i < |Tokens(events, n)| :: Tokens(events, n)[i].Token?
  {
    if n > 0 {
      TokensMean(events, n - 1, ms);
    }
  }

  lemma {:induction false} NoDoneYet(ms: seq<Message>, n: nat)
    requires n <= |ms| && forall i | 0 <= i < n :: !ms[i].Done?
    ensures !Meanings(START, ms, n).receivedDone
  {
    if n > 0 { NoDoneYet(ms, n - 1); }
  }

  /** The whole of what was written: an answer is shown as complete exactly when it was saved, with the same text and
      sources; otherwise the page reports what went wrong. */
  lemma WholeAnswer(events: seq<AnswerEvent>, ending: Ending, context: Context, sources: seq<Source>, saveFails: bool,
                    written: seq<Message>, saved: Option<Question>)
    requires Asked(events, ending, context, sources, saveFails, written, saved)
    ensures var v := Meanings(START, written, |written|);
            && v.answer == AnswerText(events, |events|)
            && (saved.Some? ==> OutcomeOf(v) == Shown && v.sources == saved.value.sources)
            && (saved.None? && context == Gone ==> OutcomeOf(v) == EndedUnexpectedly)
            && (saved.None? && context == TimedOut ==> OutcomeOf(v) == Reported(GenerationTimeout.Message()))
            && (saved.None? && context == Live ==>
                  OutcomeOf(v) == Reported(if ending == Closed && ModelDone(events, |events|)
                                           then HistoryFailed.Message() else GenerationFailed.Message()))
  {
    var tokens := Tokens(events, |events|);
    TokensMean(events, |events|, written);
    EndsMean(START.(answer := AnswerText(events, |events|)), written, |tokens|, saved,
             ending == Closed && ModelDone(events, |events|), context, sources);
  }

  lemma EndsMean(v: View, written: seq<Message>, n: nat, saved: Option<Question>, complete: bool, context: Context,
                 sources: seq<Source>)
    requires n <= |written| && written[n..] == Ends(saved, complete, context, sources)
    requires Meanings(START, written, n) == v && v == START.(answer := v.answer)
    ensures var w := Meanings(START, written, |written|);
            && w.answer == v.answer
            && (context == Gone ==> w == v)
            && (context != Gone && saved.Some? ==> OutcomeOf(w) == Shown && w.sources == sources)
            && (context != Gone && saved.None? ==>
                  OutcomeOf(w) == Reported((if context == TimedOut then GenerationTimeout
                                            else if !complete then GenerationFailed else HistoryFailed).Message()))
  {
    var tail := written[n..];
    assert |written| == n + |tail|;
    if |tail| > 0 {
      assert written[n] == tail[0] && written[n + 1] == tail[1];
      assert Meanings(START, written, n + 1) == Meaning(v, tail[0]);
      assert Meanings(START, written, n + 2) == Meaning(Meaning(v, tail[0]), tail[1]);
      if |tail| > 2 {
        assert written[n + 2] == tail[2];
        assert Meanings(START, written, n + 3) == Meaning(Meaning(Meaning(v, tail[0]), tail[1]), tail[2]);
      }
    }
  }

  /** Only the last message says that the answer is done. */
  lemma OnlyLastIsDone(events: seq<AnswerEvent>, ending: Ending, context: Context, sources: seq<Source>,
                       saveFails: bool, written: seq<Message>, saved: Option<Question>)
    requires Asked(events, ending, context, sources, saveFails, written, saved)
    ensures forall i | 0 <= i < |written| - 1 :: !written[i].Done?
  {
    TokensMean(events, |events|, written);
  }

  /** However the network cuts the text off and splits it up, the page shows an answer as complete only if it was saved
      as shown; and when all the text arrives, it does so exactly if it was saved. The saved question itself never
      reaches the page, which looks for it under a key that is not written. */
  lemma ShownIffSaved(events: seq<AnswerEvent>, ending: Ending, context: Context, sources: seq<Source>, saveFails: bool,
                      written: seq<Message>, saved: Option<Question>, arrived: string, encode: Encoder, decode: Decoder)
    requires Faithful(encode, decode) && Asked(events, ending, context, sources, saveFails, written, saved)
    requires arrived <= Text(written, encode)
    ensures var v := Run(START, Delivered(arrived), decode);
            && (OutcomeOf(v) == Shown ==>
                  saved.Some? && v.answer == saved.value.answer && v.sources == saved.value.sources)
            && (arrived == Text(written, encode) && saved.Some? ==> OutcomeOf(v) == Shown)
            && v.history == None
  {
    var v := Run(START, Delivered(arrived), decode);
    var n := CutText(written, arrived, encode, decode);
    WholeAnswer(events, ending, context, sources, saveFails, written, saved);
    if OutcomeOf(v) == Shown && n < |written| {
      OnlyLastIsDone(events, ending, context, sources, saveFails, written, saved);
      NoDoneYet(written, n);
    }
  }

  /** A question asked and its answer read, whatever the pieces in which a part of the response arrives. */
  method AskAndRead(owner: string, document: string, question: string, events: seq<AnswerEvent>, ending: Ending,
                    context: Context, sources: seq<Source>, saveFails: bool, encode: Encoder, decode: Decoder,
                    arrived: nat, cuts: seq<nat>)
    returns (saved: Option<Question>, view: View, outcome: Outcome, sent: string)
    requires Faithful(encode, decode)
    ensures outcome == OutcomeOf(view)
    ensures outcome == Shown ==> saved.Some? && view.answer == saved.value.answer == AnswerText(events, |events|)
                                 && view.sources == saved.value.sources == sources
    ensures saved.Some? ==> ending == Closed && ModelDone(events, |events|) && context == Live
    ensures saved.Some? && |sent| <= arrived ==> outcome == Shown
    ensures view.history == None
  {
    var response := new Response();
    assert Wires([], encode) == [];
    ghost var written: seq<Message>;
    saved, written := Ask(owner, document, question, events, ending, context, sources, saveFails, encode, response);
    sent := response.text;
    var received := if arrived < |sent| then sent[..arrived] else sent;
    var pieces := CutUp(received, cuts);
    var reader := new Reader();
    outcome := reader.Read(pieces, decode);
    view := reader.view;
    ShownIffSaved(events, ending, context, sources, saveFails, written, saved, received, encode, decode);
  }

  /** Some way of splitting a text. */
  method CutUp(text: string, cuts: seq<nat>) returns (pieces: seq<string>)
    ensures Concat(pieces) == text
  {
    pieces := [];
    var at := 0;
    for i := 0 to |cuts|
      invariant at <= |text| && Concat(pieces) == text[..at]
    {
      var end := if cuts[i] < at then at else if cuts[i] <= |text| then cuts[i] else |text|;
      OnePieceMore(pieces, text, at, end);
      pieces, at := pieces + [text[at..end]], end;
    }
    OnePieceMore(pieces, text, at, |text|);
    assert text[..|text|] == text;
    pieces := pieces + [text[at..|text|]];
  }

  lemma OnePieceMore(pieces: seq<string>, text: string, at: nat, end: nat)
    requires at <= end <= |text| && Concat(pieces) == text[..at]
    ensures Concat(pieces + [text[at..end]]) == text[..end]
  {
    ConcatAppend(pieces, text[at..end]);
    assert text[..at] + text[at..end] == text[..end];
  }
}
