/**
 One answered question: what the API writes and saves (api/documents.go), and what the page makes of the text as it
 arrives (frontend/src/hooks/use-answer-stream.ts). JSON is a pair of functions that are assumed to be inverse.
 */
module AnswerStream {
  import opened Options
  import opened EventStream

  datatype Source = Source(chunkIndex: int, text: string, startOffset: nat, endOffset: nat, pageStart: nat,
                           pageEnd: nat)

  datatype Question = Question(owner: string, document: string, question: string, answer: string, sources: seq<Source>)

  datatype FailureCode = GenerationTimeout | GenerationFailed | HistoryFailed
  {
    function Message(): string {
      match this
      case GenerationTimeout => "Answer generation timed out."
      case GenerationFailed => "Could not complete the answer."
      case HistoryFailed => "Answer completed but could not be saved."
    }
  }

  /** What the API writes. */
  datatype Message =
    | Token(text: string)
    | Sources(sources: seq<Source>)
    | Failure(code: FailureCode)
    | History(saved: Question)
    | Done(ok: bool)
  {
    function Kind(): string {
      match this
      case Token(_) => "token"
      case Sources(_) => "sources"
      case Failure(_) => "error"
      case History(_) => "history"
      case Done(_) => "done"
    }
  }

  /** The sources inside a saved question: a list, or a text together with what parsing it gives. */
  datatype SourceList = Listed(list: seq<Source>) | Written(text: string, parsed: Option<seq<Source>>)
  {
    /** An empty text stands for the empty list. */
    function Sources(): Option<seq<Source>> {
      match this
      case Listed(list) => Some(list)
      case Written(text, parsed) => if text == "" then Some([]) else parsed
    }
  }

  /** A saved question under a `history` key; the sources of `item` itself are not looked at. */
  datatype Keyed = Keyed(item: Question, sources: SourceList)

  /** The keys of a payload that the page looks at. */
  datatype Payload = Payload(ok: Option<bool>, text: Option<string>, message: Option<string>,
                             sources: Option<seq<Source>>, history: Option<Keyed>)

  type Encoder = Message -> string
  type Decoder = string -> Option<Payload>

  /** What the page finds in the payload of a message. A saved question is written without a `history` key around it. */
  ghost predicate Reads(m: Message, p: Payload) {
    match m
    case Token(text) => p.text == Some(text)
    case Sources(sources) => p.sources == Some(sources)
    case Failure(code) => p.message == Some(code.Message())
    case History(_) => p.history == None
    case Done(ok) => p.ok == Some(ok)
  }

  /** Encoding puts a message on one line; decoding reads it back, and fails on a payload cut short. */
  ghost predicate Encodes(m: Message, encode: Encoder, decode: Decoder) {
    && encode(m) != "" && '\n' !in encode(m)
    && decode(encode(m)).Some? && Reads(m, decode(encode(m)).value)
    && forall cut: string | cut < encode(m) && cut != "" :: decode(cut) == None
  }

  ghost predicate Faithful(encode: Encoder, decode: Decoder) {
    forall m: Message :: Encodes(m, encode, decode)
  }

  // ----- The text of messages

  function Wire(m: Message, encode: Encoder): string {
    BlockText(m.Kind(), encode(m)) + "\n\n"
  }

  function Wires(ms: seq<Message>, encode: Encoder): (wires: seq<string>)
    ensures |wires| == |ms|
  {
    seq(|ms|, i requires 0 <= i < |ms| => Wire(ms[i], encode))
  }

  function Text(ms: seq<Message>, encode: Encoder): string {
    Concat(Wires(ms, encode))
  }

  lemma TextAppend(ms: seq<Message>, m: Message, encode: Encoder)
    ensures Text(ms + [m], encode) == Text(ms, encode) + Wire(m, encode)
  {
    assert Wires(ms + [m], encode) == Wires(ms, encode) + [Wire(m, encode)];
    ConcatAppend(Wires(ms, encode), Wire(m, encode));
  }

  lemma TextUpTo(ms: seq<Message>, i: nat, encode: Encoder)
    requires i < |ms|
    ensures Text(ms[..i + 1], encode) == Text(ms[..i], encode) + Wire(ms[i], encode)
  {
    var before := ms[..i];
    assert ms[..i + 1] == before + [ms[i]];
    TextAppend(before, ms[i], encode);
  }

  lemma TextConcat(ms: seq<Message>, more: seq<Message>, encode: Encoder)
    ensures Text(ms + more, encode) == Text(ms, encode) + Text(more, encode)
  {
    assert Wires(ms + more, encode) == Wires(ms, encode) + Wires(more, encode);
    ConcatBoth(Wires(ms, encode), Wires(more, encode));
  }

  // ----- The API

  datatype AnswerEvent = AnswerEvent(text: string, done: bool)

  /** How the model's stream ends, and whether the request is still wanted by then. */
  datatype Ending = Closed | Broken
  datatype Context = Live | TimedOut | Gone

  ghost function AnswerText(events: seq<AnswerEvent>, n: nat): string
    requires n <= |events|
  {
    if n == 0 then "" else AnswerText(events, n - 1) + if events[n - 1].done then "" else events[n - 1].text
  }

  ghost function Tokens(events: seq<AnswerEvent>, n: nat): seq<Message>
    requires n <= |events|
  {
    if n == 0 then [] else Tokens(events, n - 1) + if events[n - 1].done then [] else [Token(events[n - 1].text)]
  }

  ghost predicate ModelDone(events: seq<AnswerEvent>, n: nat)
    requires n <= |events|
  {
    exists i :: 0 <= i < n && events[i].done
  }

  /** The answer is the texts of the tokens, put together. */
  ghost function TokenTexts(events: seq<AnswerEvent>, n: nat): (texts: seq<string>)
    requires n <= |events|
    ensures |texts| == n
  {
    seq(n, i requires 0 <= i < n => if events[i].done then "" else events[i].text)
  }

  lemma {:induction false} AnswerIsConcat(events: seq<AnswerEvent>, n: nat)
    requires n <= |events|
    ensures AnswerText(events, n) == Concat(TokenTexts(events, n))
  {
    if n > 0 {
      var before: nat := n - 1;
      AnswerIsConcat(events, before);
      TokenTextsStep(events, before, n);
      ConcatAppend(TokenTexts(events, before), if events[before].done then "" else events[before].text);
    }
  }

  lemma TokenTextsStep(events: seq<AnswerEvent>, before: nat, n: nat)
    requires before + 1 == n <= |events|
    ensures TokenTexts(events, n)
            == TokenTexts(events, before) + [if events[before].done then "" else events[before].text]
  {
  }

  class Response {
    var text: string

    constructor ()
      ensures text == ""
    {
      text := "";
    }

    method WriteSSE(m: Message, encode: Encoder)
      modifies this
      ensures text == old(text) + Wire(m, encode)
    {
      text := text + ("event: " + m.Kind() + "\ndata: " + encode(m) + "\n\n");
    }

    /** Messages one after the other. */
    method WriteAll(ms: seq<Message>, encode: Encoder)
      modifies this
      ensures text == old(text) + Text(ms, encode)
    {
      for i := 0 to |ms|
        invariant text == old(text) + Text(ms[..i], encode)
      {
        TextUpTo(ms, i, encode);
        Regroup(old(text), Text(ms[..i], encode), Wire(ms[i], encode));
        WriteSSE(ms[i], encode);
      }
      assert ms[..|ms|] == ms;
    }
  }

  /** The end of the written stream, after the tokens. */
  ghost function Ends(saved: Option<Question>, complete: bool, context: Context, sources: seq<Source>): seq<Message> {
    if context == Gone then []
    else if saved.Some? then [Sources(sources), History(saved.value), Done(true)]
    else if context == TimedOut then [Failure(GenerationTimeout), Done(false)]
    else if !complete then [Failure(GenerationFailed), Done(false)]
    else [Sources(sources), Failure(HistoryFailed), Done(false)]
  }

  /** What one call of the handler writes and saves. */
  ghost predicate Asked(events: seq<AnswerEvent>, ending: Ending, context: Context, sources: seq<Source>,
                        saveFails: bool, written: seq<Message>, saved: Option<Question>) {
    var complete := ending == Closed && ModelDone(events, |events|);
    && (saved.Some? <==> complete && context == Live && !saveFails)
    && (saved.Some? ==> saved.value.answer == AnswerText(events, |events|) && saved.value.sources == sources)
    && written == Tokens(events, |events|) + Ends(saved, complete, context, sources)
  }

  /** Event i of the model: a token is passed on, and the last event only noted. */
  method PassOn(events: seq<AnswerEvent>, i: nat, next: nat, encode: Encoder, response: Response,
                answerBefore: string, completedBefore: bool, ghost before: seq<Message>)
    returns (answer: string, modelCompleted: bool, ghost written: seq<Message>)
    requires next == i + 1 <= |events| && Passed(events, i, answerBefore, completedBefore, before)
    requires response.text == Text(before, encode)
    modifies response
    ensures Passed(events, next, answer, modelCompleted, written) && response.text == Text(written, encode)
  {
    var event := events[i];
    answer, modelCompleted, written := answerBefore, completedBefore, before;
    if event.done {
      modelCompleted := true;
    } else {
      answer := answer + event.text;
      response.WriteSSE(Token(event.text), encode);
      TextAppend(before, Token(event.text), encode);
      written := before + [Token(event.text)];
    }
  }

  /** The loop variables after n events. */
  ghost predicate Passed(events: seq<AnswerEvent>, n: nat, answer: string, modelCompleted: bool,
                         written: seq<Message>) {
    && n <= |events|
    && written == Tokens(events, n) && answer == AnswerText(events, n) && modelCompleted == ModelDone(events, n)
  }

  /** The loop over the model's stream. */
  method PassAllOn(events: seq<AnswerEvent>, encode: Encoder, response: Response)
    returns (answer: string, modelCompleted: bool, ghost written: seq<Message>)
    requires response.text == Text([], encode)
    modifies response
    ensures response.text == Text(written, encode) && Passed(events, |events|, answer, modelCompleted, written)
  {
    answer, modelCompleted, written := "", false, [];
    var i := 0;
    while i < |events|
      invariant Passed(events, i, answer, modelCompleted, written) && response.text == Text(written, encode)
    {
      var next := i + 1;
      answer, modelCompleted, written := PassOn(events, i, next, encode, response, answer, modelCompleted, written);
      i := next;
    }
  }

  /** The answer is saved only after the model said that it is done and its stream closed while the request was
      wanted. */
  method Ask(owner: string, document: string, question: string, events: seq<AnswerEvent>, ending: Ending,
             context: Context, sources: seq<Source>, saveFails: bool, encode: Encoder, response: Response)
    returns (saved: Option<Question>, ghost written: seq<Message>)
    requires response.text == Text([], encode)
    modifies response
    ensures response.text == Text(written, encode)
    ensures Asked(events, ending, context, sources, saveFails, written, saved)
    ensures saved.Some? <==>
              && ending == Closed && context == Live && !saveFails
              && exists i :: 0 <= i < |events| && events[i].done
    ensures saved.Some? ==>
              saved.value == Question(owner, document, question, Concat(TokenTexts(events, |events|)), sources)
  {
    AnswerIsConcat(events, |events|);
    var answer, modelCompleted;
    answer, modelCompleted, written := PassAllOn(events, encode, response);
    ghost var tail: seq<Message>;
    saved, tail := Finish(owner, document, question, answer, modelCompleted, ending, context, sources, saveFails,
                          encode, response);
    TextConcat(written, tail, encode);
    written := written + tail;
  }

  /** What follows the model's stream. */
  method Finish(owner: string, document: string, question: string, answer: string, modelCompleted: bool, ending: Ending,
                context: Context, sources: seq<Source>, saveFails: bool, encode: Encoder, response: Response)
    returns (saved: Option<Question>, ghost tail: seq<Message>)
    modifies response
    ensures response.text == old(response.text) + Text(tail, encode)
    ensures saved == if ending == Closed && modelCompleted && context == Live && !saveFails
                     then Some(Question(owner, document, question, answer, sources)) else None
    ensures tail == Ends(saved, ending == Closed && modelCompleted, context, sources)
  {
    saved := None;
    var messages: seq<Message>;
    if context == Gone {
      messages := [];
    } else if context == TimedOut {
      messages := [Failure(GenerationTimeout), Done(false)];
    } else if ending == Broken || !modelCompleted {
      messages := [Failure(GenerationFailed), Done(false)];
    } else if saveFails {
      messages := [Sources(sources), Failure(HistoryFailed), Done(false)];
    } else {
      var history := Question(owner, document, question, answer, sources);
      saved := Some(history);
      messages := [Sources(sources), History(history), Done(true)];
    }
    response.WriteAll(messages, encode);
    tail := messages;
  }
}

/** The page: blocks are taken from the text as they become complete. */
module AnswerPage {
  import opened Options
  import opened EventStream
  import opened AnswerStream

  /** The variables of one read, with `thrown` once a payload could not be parsed. */
  datatype View = View(answer: string, sources: seq<Source>, history: Option<Question>, receivedDone: bool,
                       successful: bool, streamError: Option<string>, thrown: bool)

  const START: View := View("", [], None, false, false, None, false)

  const NO_MESSAGE: string := "Could not complete the answer."

  function Or<T>(o: Option<T>, otherwise: T): T {
    match o
    case None => otherwise
    case Some(value) => value
  }

  /** The sources of a saved question are parsed once more when they are a text. */
  function ApplyHistory(v: View, saved: Keyed): View {
    match saved.sources.Sources()
    case None => v.(thrown := true)
    case Some(sources) => v.(history := Some(saved.item.(sources := sources)))
  }

  /** A parsed payload of the given kind; kinds that are not known change nothing. */
  function Apply(v: View, kind: Option<string>, p: Payload): View {
    if kind == Some("token") then v.(answer := v.answer + Or(p.text, ""))
    else if kind == Some("sources") then v.(sources := Or(p.sources, []))
    else if kind == Some("history") then if p.history.Some? then ApplyHistory(v, p.history.value) else v
    else if kind == Some("error") then v.(streamError := Some(Or(p.message, NO_MESSAGE)))
    else if kind == Some("done") then v.(receivedDone := true, successful := p.ok == Some(true))
    else v
  }

  /** One block. A block without data is skipped, and after an error nothing more is looked at. */
  function Dispatch(v: View, block: string, decode: Decoder): View {
    var data := Field(block, "data: ");
    if v.thrown || data.None? || data.value == "" then v
    else match decode(data.value)
      case None => v.(thrown := true)
      case Some(p) => Apply(v, Field(block, "event: "), p)
  }

  ghost function Run(v: View, blocks: seq<string>, decode: Decoder): View {
    if blocks == [] then v else Dispatch(Run(v, Front(blocks), decode), Last(blocks), decode)
  }

  lemma RunAppend(v: View, blocks: seq<string>, block: string, decode: Decoder)
    ensures Run(v, blocks + [block], decode) == Dispatch(Run(v, blocks, decode), block, decode)
  {
    assert Front(blocks + [block]) == blocks;
  }

  lemma {:induction false} RunConcat(v: View, a: seq<string>, b: seq<string>, decode: Decoder)
    ensures Run(v, a + b, decode) == Run(Run(v, a, decode), b, decode)
    decreases |b|
  {
    if b == [] {
      assert a + b == a;
    } else {
      RunConcat(v, a, Front(b), decode);
      assert Front(a + b) == a + Front(b);
    }
  }

  lemma {:induction false} RunThrown(v: View, blocks: seq<string>, decode: Decoder)
    requires v.thrown
    ensures Run(v, blocks, decode) == v
  {
    if blocks != [] { RunThrown(v, Front(blocks), decode); }
  }

  /** White space for String.prototype.trim. */
  predicate Space(c: char) {
    || '\t' <= c <= '\r' || c == ' ' || c == '\U{a0}' || c == '\U{1680}' || '\U{2000}' <= c <= '\U{200a}'
    || c == '\U{2028}' || c == '\U{2029}' || c == '\U{202f}' || c == '\U{205f}' || c == '\U{3000}' || c == '\U{feff}'
  }

  predicate OnlySpace(s: string) {
    forall i | 0 <= i < |s| :: Space(s[i])
  }

  /** The blocks of a whole text; an open one at the end counts unless it is blank. */
  function Delivered(text: string): seq<string> {
    var pieces := SplitBlank(text);
    if OnlySpace(Last(pieces)) then Front(pieces) else pieces
  }

  datatype Outcome = Shown | EndedUnexpectedly | Reported(message: string) | Incomplete | Unreadable

  function OutcomeOf(v: View): Outcome {
    if v.thrown then Unreadable
    else if !v.receivedDone then EndedUnexpectedly
    else if v.streamError.Some? && v.streamError.value != "" then Reported(v.streamError.value)
    else if !v.successful then Incomplete
    else Shown
  }

  /** More text leaves the blocks found so far as they are. */
  lemma MoreText(text: string, piece: string, read: seq<string>, buffer: string)
    requires SplitBlank(text) == read + [buffer]
    ensures var events := SplitBlank(buffer + piece);
            SplitBlank(text + piece) == (read + Front(events)) + [Last(events)]
  {
    SplitMore(text, piece);
    assert Last(read + [buffer]) == buffer && Front(read + [buffer]) == read;
  }

  lemma KeepsBlocks(text: string, rest: string, read: seq<string>, buffer: string)
    requires SplitBlank(text) == read + [buffer]
    ensures read <= Delivered(text + rest)
  {
    MoreText(text, rest, read, buffer);
    var events := SplitBlank(buffer + rest);
    assert Front((read + Front(events)) + [Last(events)]) == read + Front(events);
  }

  lemma StaysThrown(text: string, rest: string, read: seq<string>, buffer: string, decode: Decoder)
    requires SplitBlank(text) == read + [buffer] && Run(START, read, decode).thrown
    ensures Run(START, Delivered(text + rest), decode) == Run(START, read, decode)
  {
    KeepsBlocks(text, rest, read, buffer);
    var all := Delivered(text + rest);
    assert all == read + all[|read|..];
    RunConcat(START, read, all[|read|..], decode);
    RunThrown(Run(START, read, decode), all[|read|..], decode);
  }

  /** The end of the text: a blank open block is dropped. */
  lemma LastBlock(text: string, read: seq<string>, buffer: string, decode: Decoder)
    requires SplitBlank(text) == read + [buffer]
    ensures Run(START, Delivered(text), decode)
            == if OnlySpace(buffer) then Run(START, read, decode)
                else Dispatch(Run(START, read, decode), buffer, decode)
  {
    assert Last(read + [buffer]) == buffer && Front(read + [buffer]) == read;
  }

  lemma RunOn(v: View, events: seq<string>, i: nat, decode: Decoder)
    requires i < |events|
    ensures Run(v, events[..i + 1], decode) == Dispatch(Run(v, events[..i], decode), events[i], decode)
  {
    assert Front(events[..i + 1]) == events[..i];
  }

  lemma RunStops(v: View, events: seq<string>, i: nat, decode: Decoder)
    requires i <= |events| && Run(v, events[..i], decode).thrown
    ensures Run(v, events, decode) == Run(v, events[..i], decode)
  {
    assert events == events[..i] + events[i..];
    RunConcat(v, events[..i], events[i..], decode);
    RunThrown(Run(v, events[..i], decode), events[i..], decode);
  }

  class Reader {
    var view: View
    var buffer: string

    constructor ()
      ensures view == START && buffer == ""
    {
      view, buffer := START, "";
    }

    method ProcessEvent(value: string, decode: Decoder)
      requires !view.thrown
      modifies this`view
      ensures view == Dispatch(old(view), value, decode)
    {
      var data, kind := Field(value, "data: "), Field(value, "event: ");
      if data.None? || data.value == "" {
        return;
      }
      var parsed := decode(data.value);
      if parsed.None? {
        view := view.(thrown := true);
        return;
      }
      var payload := parsed.value;
      if kind == Some("token") {
        view := view.(answer := view.answer + Or(payload.text, ""));
      }
      if kind == Some("sources") {
        view := view.(sources := Or(payload.sources, []));
      }
      if kind == Some("history") && payload.history.Some? {
        var saved := payload.history.value;
        var sources := if saved.sources.Listed? then Some(saved.sources.list)
                       else if saved.sources.text == "" then Some([]) else saved.sources.parsed;
        if sources.None? {
          view := view.(thrown := true);
          return;
        }
        view := view.(history := Some(saved.item.(sources := sources.value)));
      }
      if kind == Some("error") {
        view := view.(streamError := Some(Or(payload.message, NO_MESSAGE)));
      }
      if kind == Some("done") {
        view := view.(receivedDone := true, successful := payload.ok == Some(true));
      }
    }

    /** Blocks in order, up to one that throws. */
    method ProcessEvents(events: seq<string>, decode: Decoder)
      requires !view.thrown
      modifies this`view
      ensures view == Run(old(view), events, decode)
    {
      for i := 0 to |events|
        invariant !view.thrown && view == Run(old(view), events[..i], decode)
      {
        RunOn(old(view), events, i, decode);
        ProcessEvent(events[i], decode);
        if view.thrown {
          RunStops(old(view), events, i + 1, decode);
          return;
        }
      }
      assert events[..|events|] == events;
    }

    /** Takes in one piece of text: all blocks but the last are complete. */
    method Receive(piece: string, decode: Decoder, ghost text: string, ghost before: seq<string>)
      returns (ghost read: seq<string>)
      requires !view.thrown && SplitBlank(text) == before + [buffer] && view == Run(START, before, decode)
      modifies this
      ensures SplitBlank(text + piece) == read + [buffer] && view == Run(START, read, decode)
    {
      MoreText(text, piece, before, buffer);
      var events := SplitBlank(buffer + piece);
      buffer := Last(events);
      ProcessEvents(Front(events), decode);
      RunConcat(START, before, Front(events), decode);
      read := before + Front(events);
    }

    /** Whatever the pieces in which the text arrives, the page ends up as if it had been split all at once. */
    method Read(pieces: seq<string>, decode: Decoder) returns (outcome: Outcome)
      requires view == START && buffer == ""
      modifies this
      ensures view == Run(START, Delivered(Concat(pieces)), decode)
      ensures outcome == OutcomeOf(view)
    {
      ghost var read: seq<string> := [];
      for i := 0 to |pieces|
        invariant !view.thrown && view == Run(START, read, decode)
        invariant SplitBlank(Concat(pieces[..i])) == read + [buffer]
      {
        read := Receive(pieces[i], decode, Concat(pieces[..i]), read);
        PiecesSoFar(pieces, i);
        if view.thrown {
          StaysThrown(Concat(pieces[..i + 1]), Concat(pieces[i + 1..]), read, buffer, decode);
          return Unreadable;
        }
      }
      assert pieces[..|pieces|] == pieces;
      LastBlock(Concat(pieces), read, buffer, decode);
      if !OnlySpace(buffer) {
        ProcessEvent(buffer, decode);
      }
      return OutcomeOf(view);
    }
  }

  lemma CutAround(pieces: seq<string>, i: nat)
    requires i < |pieces|
    ensures pieces[..i + 1] == pieces[..i] + [pieces[i]]
    ensures pieces == pieces[..i + 1] + pieces[i + 1..]
  {
  }

  lemma PiecesSoFar(pieces: seq<string>, i: nat)
    requires i < |pieces|
    ensures Concat(pieces[..i + 1]) == Concat(pieces[..i]) + pieces[i]
    ensures Concat(pieces) == Concat(pieces[..i + 1]) + Concat(pieces[i + 1..])
  {
    CutAround(pieces, i);
    ConcatAppend(pieces[..i], pieces[i]);
    ConcatBoth(pieces[..i + 1], pieces[i + 1..]);
  }
}
