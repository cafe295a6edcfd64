/**
 * anthropic.ts: reassembling an answer from a stream of server-sent events. The framing is a subset of section 9.2.6 of
 * the WHATWG HTML standard: events end at "\n\n", and only the `event` and `data` fields are read.
 */
module Sse {
  import opened Text
  import opened Wrappers

  const BLANK := "\n\n"

  /** The number of a content block: any integer the provider sends. */
  datatype BlockIndex = BlockIndex(number: int)

  // ---- One event ----

  /** What JSON.parse and the field accesses give for the data of an event. */
  datatype Parsed = NotJson | JsonNull | Json(kind: Option<string>, fields: Fields)

  datatype Fields = Fields(
    inputTokens: Option<nat>, outputTokens: Option<nat>, cacheRead: Option<nat>, cacheCreation: Option<nat>,
    index: BlockIndex, block: Option<Option<string>>, textDelta: Option<string>, stopReason: Option<string>, errorText: string)

  const NO_FIELDS := Fields(None, None, None, None, BlockIndex(0), None, None, None, "{}")

  datatype Answer = Answer(
    inputTokens: Option<nat>, outputTokens: Option<nat>, cacheRead: Option<nat>, cacheCreation: Option<nat>,
    stopReason: Option<string>, textParts: map<BlockIndex, string>, blockTypes: map<BlockIndex, string>)

  const NOTHING := Answer(None, None, None, None, None, map[], map[])

  datatype StreamError = Aborted | TimedOut | ProviderError(message: string) | NullPayload | EmptyCompletion | Truncated

  /** How the chunks end: the body closes, the transport fails, or nothing comes for too long. */
  datatype Ending = Closed | Broken | Stalled

  datatype Progress = Going(answer: Answer) | Stopped(answer: Answer) | Failed(error: StreamError)

  function Lines(text: string): (lines: seq<string>)
    ensures |lines| > 0
  {
    if text == "" then [""]
    else
      var rest := Lines(text[1..]);
      if text[0] == '\n' then [""] + rest else [[text[0]] + rest[0]] + rest[1..]
  }

  /** What String.prototype.trim removes: the white space and line terminators of ECMA-262. */
  predicate White(c: char) {
    c in {'\t', '\n', '\U{0B}', '\U{0C}', '\r', ' ', '\U{A0}', '\U{1680}', '\U{2028}', '\U{2029}', '\U{202F}', '\U{205F}', '\U{3000}',
          '\U{FEFF}'}
    || '\U{2000}' <= c <= '\U{200A}'
  }

  function Trim(s: string): string {
    if s == "" then s
    else if White(s[0]) then Trim(s[1..])
    else if White(s[|s| - 1]) then Trim(s[..|s| - 1])
    else s
  }

  /** The value of the last `event` line. */
  function EventName(lines: seq<string>): string {
    if lines == [] then ""
    else if "event: " <= lines[|lines| - 1] then Trim(lines[|lines| - 1][7..])
    else EventName(lines[..|lines| - 1])
  }

  function DataLines(lines: seq<string>): seq<string> {
    if lines == [] then []
    else
      var last := lines[|lines| - 1];
      DataLines(lines[..|lines| - 1]) + if !("event: " <= last) && "data: " <= last then [last[6..]] else []
  }

  function Joined(parts: seq<string>): string {
    if parts == [] then ""
    else if |parts| == 1 then parts[0]
    else parts[0] + "\n" + Joined(parts[1..])
  }

  function Newer<T>(now: Option<T>, before: Option<T>): Option<T> {
    if now.Some? then now else before
  }

  /** What a typed message does to the answer so far. */
  function Handled(answer: Answer, kind: string, f: Fields): Progress {
    if kind == "message_start" then
      Going(answer.(inputTokens := f.inputTokens, cacheRead := Newer(f.cacheRead, answer.cacheRead),
                    cacheCreation := Newer(f.cacheCreation, answer.cacheCreation)))
    else if kind == "content_block_start" then
      var kindOfBlock := if f.block.Some? && f.block.value.Some? then f.block.value.value else "text";
      Going(answer.(blockTypes := answer.blockTypes[f.index := kindOfBlock],
                    textParts := if f.block == Some(Some("text")) then answer.textParts[f.index := ""] else answer.textParts))
    else if kind == "content_block_delta" then
      if f.textDelta.Some? && f.index in answer.blockTypes && answer.blockTypes[f.index] == "text" then
        var before := if f.index in answer.textParts then answer.textParts[f.index] else "";
        Going(answer.(textParts := answer.textParts[f.index := before + f.textDelta.value]))
      else Going(answer)
    else if kind == "message_delta" then
      Going(answer.(stopReason := Newer(f.stopReason, answer.stopReason), outputTokens := Newer(f.outputTokens, answer.outputTokens),
                    cacheRead := Newer(f.cacheRead, answer.cacheRead), cacheCreation := Newer(f.cacheCreation, answer.cacheCreation)))
    else if kind == "message_stop" then Stopped(answer)
    else if kind == "error" then Failed(ProviderError(f.errorText))
    else Going(answer)
  }

  /** A message: its type, and what its data holds. */
  datatype Message = Message(kind: string, fields: Fields)

  datatype Reading = Ignored | NullData | Typed(message: Message)

  function ReadMessage(rawEvent: string, parse: string -> Parsed): Reading {
    var lines := Lines(rawEvent);
    var name, data := EventName(lines), DataLines(lines);
    if name == "" && data == [] then Ignored
    else if data == [] then Typed(Message(name, NO_FIELDS))
    else
      match parse(Joined(data))
      case NotJson => Ignored
      case JsonNull => NullData
      case Json(kind, fields) => Typed(Message(if kind.Some? then kind.value else name, fields))
  }

  function OneEvent(answer: Answer, rawEvent: string, parse: string -> Parsed): Progress {
    match ReadMessage(rawEvent, parse)
    case Ignored => Going(answer)
    case NullData => Failed(NullPayload)
    case Typed(m) => Handled(answer, m.kind, m.fields)
  }

  // ---- The whole stream: split at blank lines, then read event by event ----

  /** The complete events of a stream, each ended by the first blank line after it. */
  function Events(text: string): seq<string>
    decreases |text|
  {
    var k := IndexOf(text, BLANK, 0);
    if k.None? then [] else [text[..k.value]] + Events(text[k.value + 2..])
  }

  /** What follows the last complete event. */
  function Rest(text: string): string
    decreases |text|
  {
    var k := IndexOf(text, BLANK, 0);
    if k.None? then text else Rest(text[k.value + 2..])
  }

  function ReadEvents(answer: Answer, events: seq<string>, parse: string -> Parsed): Progress
    decreases |events|
  {
    if events == [] then Going(answer)
    else
      var now := OneEvent(answer, events[0], parse);
      if now.Going? then ReadEvents(now.answer, events[1..], parse) else now
  }

  function SortedIndices(indices: set<BlockIndex>): seq<BlockIndex> {
    if indices == {} then []
    else
      LeastIndex(indices);
      var least :| least in indices && forall i <- indices :: least.number <= i.number;
      [least] + SortedIndices(indices - {least})
  }

  lemma LeastIndex(indices: set<BlockIndex>)
    requires indices != {}
    ensures exists least :: least in indices && forall i <- indices :: least.number <= i.number
  {
    var x :| x in indices;
    if indices != {x} {
      var others := indices - {x};
      LeastIndex(others);
      var m :| m in others && forall i <- others :: m.number <= i.number;
      var least := if m.number < x.number then m else x;
      assert forall i <- indices :: i == x || i in others;
      assert least in indices && forall i <- indices :: least.number <= i.number;
    }
  }

  function TextsAt(parts: map<BlockIndex, string>, indices: seq<BlockIndex>): (texts: seq<string>)
    requires forall i <- indices :: i in parts
    ensures |texts| == |indices| && forall k :: 0 <= k < |indices| ==> indices[k] in parts && texts[k] == parts[indices[k]]
  {
    if indices == [] then []
    else
      assert indices[0] in indices;
      [parts[indices[0]]] + TextsAt(parts, indices[1..])
  }

  predicate Increasing(indices: seq<BlockIndex>) {
    forall i, j :: 0 <= i < j < |indices| ==> indices[i].number < indices[j].number
  }

  lemma LeastFirst(least: BlockIndex, rest: seq<BlockIndex>)
    requires Increasing(rest) && forall i <- rest :: least.number < i.number
    ensures Increasing([least] + rest)
  {}

  lemma {:induction false} SortedSame(indices: set<BlockIndex>)
    ensures forall i :: i in SortedIndices(indices) <==> i in indices
    ensures Increasing(SortedIndices(indices))
  {
    hide Increasing;
    if indices == {} {
      NoneIncreasing();
    } else {
      LeastIndex(indices);
      var least :| least in indices && forall i <- indices :: least.number <= i.number;
      var rest := SortedIndices(indices - {least});
      assert SortedIndices(indices) == [least] + rest;
      hide SortedIndices;
      SortedSame(indices - {least});
      assert forall i <- rest :: least.number <= i.number && i != least;
      LeastFirst(least, rest);
    }
  }

  lemma NoneIncreasing()
    ensures Increasing([])
  {}

  /** The text blocks in the order of their indices. */
  function AnswerText(answer: Answer): string {
    SortedSame(answer.textParts.Keys);
    Joined(TextsAt(answer.textParts, SortedIndices(answer.textParts.Keys)))
  }

  datatype Reply = Reply(text: string, answer: Answer)

  /** The checks on a complete message. */
  function Finished(answer: Answer): Result<Reply, StreamError> {
    if Trim(AnswerText(answer)) == "" then Err(EmptyCompletion)
    else if answer.stopReason == Some("max_tokens") then Err(Truncated)
    else Ok(Reply(AnswerText(answer), answer))
  }

  /** A stream that ends before message_stop is given up: its partial answer is not used. */
  function GivenUp(ending: Ending): StreamError {
    if ending.Stalled? then TimedOut else Aborted
  }

  function Concluded(progress: Progress, ending: Ending): Result<Reply, StreamError> {
    match progress
    case Going(_) => Err(GivenUp(ending))
    case Stopped(answer) => Finished(answer)
    case Failed(error) => Err(error)
  }

  function OfStream(text: string, ending: Ending, parse: string -> Parsed): Result<Reply, StreamError> {
    Concluded(ReadEvents(NOTHING, Events(text), parse), ending)
  }

  function Flatten(chunks: seq<string>): string {
    if chunks == [] then "" else Flatten(chunks[..|chunks| - 1]) + chunks[|chunks| - 1]
  }

  // ---- The loop over chunks ----

  /** generateStructuredStreaming, from the response body on: how the stream is cut into chunks makes no difference. */
  method ReadStream(chunks: seq<string>, ending: Ending, parse: string -> Parsed) returns (result: Result<Reply, StreamError>)
    ensures result == OfStream(Flatten(chunks), ending, parse)
    ensures result.Ok? ==> exists n :: 0 <= n < |Events(Flatten(chunks))| && Replies(Events(Flatten(chunks)), parse, result.value, n)
  {
    hide OneEvent, Finished, Flatten, Events, Rest, ReadEvents, Replies;
    var buffer := "";
    var answer := NOTHING;
    NothingRead(parse);
    FlattenNone(chunks);
    for i := 0 to |chunks|
      invariant Standing(Flatten(chunks[..i]), answer, buffer, parse)
    {
      FlattenStep(chunks, i);
      ChunkArrives(Flatten(chunks[..i]), chunks[i], answer, buffer, parse);
      ghost var seen := Flatten(chunks[..i + 1]);
      buffer := buffer + chunks[i];
      var sep := IndexOf(buffer, BLANK, 0);
      while sep.Some?
        invariant sep == IndexOf(buffer, BLANK, 0)
        invariant Reaching(seen, answer, buffer, parse)
        decreases |buffer|
      {
        var rawEvent := buffer[..sep.value];
        EventArrives(seen, answer, buffer, parse);
        buffer := buffer[sep.value + 2..];
        var now := OneEvent(answer, rawEvent, parse);
        if now.Stopped? {
          StopIsFinal(seen, now, chunks, i, ending, parse);
          if Finished(now.answer).Ok? {
            OkRepliesShow(Flatten(chunks), ending, parse);
          }
          return Finished(now.answer);
        }
        if now.Failed? {
          StopIsFinal(seen, now, chunks, i, ending, parse);
          return Err(now.error);
        }
        answer := now.answer;
        sep := IndexOf(buffer, BLANK, 0);
      }
      AllEventsRead(seen, answer, buffer, parse);
    }
    assert chunks[..|chunks|] == chunks;
    return Err(GivenUp(ending));
  }

  /** Every complete event so far has been read into the answer; the buffer holds the incomplete one. */
  ghost predicate Standing(seen: string, answer: Answer, buffer: string, parse: string -> Parsed) {
    ReadEvents(NOTHING, Events(seen), parse) == Going(answer) && buffer == Rest(seen)
  }

  /** The events still in the buffer are all that separates the answer from what the stream so far gives. */
  ghost predicate Reaching(seen: string, answer: Answer, buffer: string, parse: string -> Parsed) {
    ReadEvents(NOTHING, Events(seen), parse) == ReadEvents(answer, Events(buffer), parse) && Rest(buffer) == Rest(seen)
  }

  lemma FlattenNone(chunks: seq<string>)
    ensures Flatten(chunks[..0]) == ""
  {}

  lemma FlattenStep(chunks: seq<string>, i: nat)
    requires i < |chunks|
    ensures Flatten(chunks[..i + 1]) == Flatten(chunks[..i]) + chunks[i]
  {
    assert chunks[..i + 1][..i] == chunks[..i];
  }

  lemma NothingRead(parse: string -> Parsed)
    ensures Standing("", NOTHING, "", parse)
  {}

  lemma FirstBlankStays(text: string, more: string)
    requires IndexOf(text, BLANK, 0).Some?
    ensures IndexOf(text + more, BLANK, 0) == IndexOf(text, BLANK, 0)
  {
    var k, whole := IndexOf(text, BLANK, 0).value, text + more;
    hide IndexOf;
    forall j | 0 <= j <= k ensures At(whole, BLANK, j) <==> At(text, BLANK, j) {
      assert whole[j..j + 2] == text[j..j + 2];
    }
  }

  lemma EventsUnfold(text: string)
    ensures var k := IndexOf(text, BLANK, 0);
            if k.None? then Events(text) == [] && Rest(text) == text
            else
              k.value + 2 <= |text| && Rest(text) == Rest(text[k.value + 2..])
              && Events(text) == [text[..k.value]] + Events(text[k.value + 2..])
  {}

  /** More text completes the incomplete event and leaves the complete ones as they are. */
  lemma {:induction false} EventsGrow(text: string, more: string)
    ensures Events(text + more) == Events(text) + Events(Rest(text) + more)
    ensures Rest(text + more) == Rest(Rest(text) + more)
    decreases |text|
  {
    hide Events, Rest, IndexOf, At;
    var k := IndexOf(text, BLANK, 0);
    EventsUnfold(text);
    if k.Some? {
      FirstBlankStays(text, more);
      EventsUnfold(text + more);
      assert (text + more)[..k.value] == text[..k.value];
      assert (text + more)[k.value + 2..] == text[k.value + 2..] + more;
      EventsGrow(text[k.value + 2..], more);
    }
  }

  lemma {:induction false} ReadConcat(answer: Answer, xs: seq<string>, ys: seq<string>, parse: string -> Parsed)
    ensures ReadEvents(answer, xs + ys, parse)
            == var first := ReadEvents(answer, xs, parse); if first.Going? then ReadEvents(first.answer, ys, parse) else first
    decreases |xs|
  {
    hide OneEvent;
    if xs == [] {
      assert xs + ys == ys;
    } else {
      assert (xs + ys)[1..] == xs[1..] + ys;
      var now := OneEvent(answer, xs[0], parse);
      if now.Going? {
        ReadConcat(now.answer, xs[1..], ys, parse);
      }
    }
  }

  lemma ChunkArrives(seen: string, chunk: string, answer: Answer, buffer: string, parse: string -> Parsed)
    requires Standing(seen, answer, buffer, parse)
    ensures Reaching(seen + chunk, answer, buffer + chunk, parse)
  {
    EventsGrow(seen, chunk);
    ReadConcat(NOTHING, Events(seen), Events(buffer + chunk), parse);
  }

  lemma EventArrives(seen: string, answer: Answer, buffer: string, parse: string -> Parsed)
    requires Reaching(seen, answer, buffer, parse) && IndexOf(buffer, BLANK, 0).Some?
    ensures var k := IndexOf(buffer, BLANK, 0).value;
            var now := OneEvent(answer, buffer[..k], parse);
            if now.Going? then Reaching(seen, now.answer, buffer[k + 2..], parse)
            else ReadEvents(NOTHING, Events(seen), parse) == now
  {
    hide OneEvent;
    var k := IndexOf(buffer, BLANK, 0).value;
    assert Events(buffer)[0] == buffer[..k] && Events(buffer)[1..] == Events(buffer[k + 2..]);
  }

  lemma AllEventsRead(seen: string, answer: Answer, buffer: string, parse: string -> Parsed)
    requires Reaching(seen, answer, buffer, parse) && IndexOf(buffer, BLANK, 0).None?
    ensures Standing(seen, answer, buffer, parse)
  {}

  lemma {:induction false} FlattenPrefix(chunks: seq<string>, n: nat) returns (more: string)
    requires n <= |chunks|
    ensures Flatten(chunks) == Flatten(chunks[..n]) + more
  {
    if n == |chunks| {
      assert chunks[..n] == chunks;
      more := "";
    } else {
      var init := chunks[..|chunks| - 1];
      assert init[..n] == chunks[..n];
      var rest := FlattenPrefix(init, n);
      more := rest + chunks[|chunks| - 1];
    }
  }

  /** Once a message_stop or an error is read, the rest of the stream plays no part. */
  lemma StopIsFinal(seen: string, now: Progress, chunks: seq<string>, i: nat, ending: Ending, parse: string -> Parsed)
    requires i < |chunks| && seen == Flatten(chunks[..i + 1])
    requires ReadEvents(NOTHING, Events(seen), parse) == now && !now.Going?
    ensures OfStream(Flatten(chunks), ending, parse) == Concluded(now, ending)
  {
    var more := FlattenPrefix(chunks, i + 1);
    NothingAfterStop(seen, more, parse);
  }

  lemma {:induction false} NothingAfterStop(text: string, more: string, parse: string -> Parsed)
    requires !ReadEvents(NOTHING, Events(text), parse).Going?
    ensures ReadEvents(NOTHING, Events(text + more), parse) == ReadEvents(NOTHING, Events(text), parse)
  {
    EventsGrow(text, more);
    ReadConcat(NOTHING, Events(text), Events(Rest(text) + more), parse);
  }

  // ---- What the whole-stream reading means ----

  predicate NoBlank(text: string) {
    IndexOf(text, BLANK, 0).None?
  }

  function Framed(events: seq<string>, rest: string): string {
    if events == [] then rest else events[0] + BLANK + Framed(events[1..], rest)
  }

  /** The events and the rest are the stream, cut at blank lines, and none of them holds one. */
  lemma {:induction false} EventsRebuildStream(text: string)
    ensures Framed(Events(text), Rest(text)) == text && NoBlank(Rest(text))
    ensures forall e <- Events(text) :: NoBlank(e + "\n")
    decreases |text|
  {
    var k := IndexOf(text, BLANK, 0);
    if k.Some? {
      var event, after := text[..k.value], text[k.value + 2..];
      EventsRebuildStream(after);
      assert text == event + BLANK + after;
      var last := IndexOf(event + "\n", BLANK, 0);
      if last.Some? {
        assert (event + "\n")[last.value..last.value + 2] == text[last.value..last.value + 2];
        assert At(text, BLANK, last.value);
      }
      assert Events(text) == [event] + Events(after);
    }
  }

  /** An event of type message_stop, whatever it is read into. */
  predicate IsStop(event: string, parse: string -> Parsed) {
    OneEvent(NOTHING, event, parse).Stopped?
  }

  lemma StopWhateverBefore(answer: Answer, event: string, parse: string -> Parsed)
    ensures OneEvent(answer, event, parse).Stopped? <==> IsStop(event, parse)
    ensures OneEvent(answer, event, parse).Stopped? ==> OneEvent(answer, event, parse).answer == answer
    ensures OneEvent(answer, event, parse).Failed? <==> OneEvent(NOTHING, event, parse).Failed?
    ensures OneEvent(answer, event, parse).Failed? ==> OneEvent(answer, event, parse) == OneEvent(NOTHING, event, parse)
  {
    hide ReadMessage;
  }

  /** The first event that is a message_stop or a failure. */
  predicate EndsAt(events: seq<string>, n: nat, parse: string -> Parsed)
    requires n < |events|
  {
    !OneEvent(NOTHING, events[n], parse).Going? && forall i :: 0 <= i < n ==> OneEvent(NOTHING, events[i], parse).Going?
  }

  /**
   * The answer is what the events before the first message_stop or failure leave; without one the stream is aborted,
   * whatever text it carried.
   */
  lemma {:induction false} ReadsToTheEnd(answer: Answer, events: seq<string>, parse: string -> Parsed)
    ensures ReadEvents(answer, events, parse).Going? <==> forall i :: 0 <= i < |events| ==> OneEvent(NOTHING, events[i], parse).Going?
    ensures forall n :: 0 <= n < |events| && EndsAt(events, n, parse) ==>
              var before := ReadEvents(answer, events[..n], parse);
              before.Going? && ReadEvents(answer, events, parse) == OneEvent(before.answer, events[n], parse)
    decreases |events|
  {
    hide OneEvent;
    if events != [] {
      StopWhateverBefore(answer, events[0], parse);
      var now, rest := OneEvent(answer, events[0], parse), events[1..];
      if now.Going? {
        ReadsToTheEnd(now.answer, rest, parse);
        forall n | 0 < n < |events| && EndsAt(events, n, parse)
          ensures var before := ReadEvents(answer, events[..n], parse);
                  before.Going? && ReadEvents(answer, events, parse) == OneEvent(before.answer, events[n], parse)
        {
          assert EndsAt(rest, n - 1, parse);
          assert rest[..n - 1] == events[..n][1..];
        }
      }
    }
  }

  /** Only a stream with a message_stop before any failure answers; one with neither is given up. */
  lemma OnlyStoppedStreamsAnswer(text: string, ending: Ending, parse: string -> Parsed)
    ensures OfStream(text, ending, parse).Ok? ==>
              exists n :: 0 <= n < |Events(text)| && EndsAt(Events(text), n, parse) && IsStop(Events(text)[n], parse)
    ensures (forall e <- Events(text) :: OneEvent(NOTHING, e, parse).Going?) ==>
              OfStream(text, ending, parse) == Err(if ending == Stalled then TimedOut else Aborted)
  {
    var events := Events(text);
    ReadsToTheEnd(NOTHING, events, parse);
    hide OneEvent, Events, Finished;
    if exists i :: 0 <= i < |events| && !OneEvent(NOTHING, events[i], parse).Going? {
      var n := FirstEnd(events, parse);
      var before := ReadEvents(NOTHING, events[..n], parse);
      StopWhateverBefore(before.answer, events[n], parse);
    }
  }

  lemma {:induction false} FirstEnd(events: seq<string>, parse: string -> Parsed) returns (n: nat)
    requires exists i :: 0 <= i < |events| && !OneEvent(NOTHING, events[i], parse).Going?
    ensures n < |events| && EndsAt(events, n, parse)
  {
    hide OneEvent;
    n := 0;
    while OneEvent(NOTHING, events[n], parse).Going?
      invariant n < |events| && forall i :: 0 <= i < n ==> OneEvent(NOTHING, events[i], parse).Going?
      decreases |events| - n
    {
      n := n + 1;
    }
  }

  // ---- What the messages leave behind ----

  function MessagesOf(events: seq<string>, parse: string -> Parsed): seq<Message> {
    if events == [] then []
    else
      var n := |events| - 1;
      var reading := ReadMessage(events[n], parse);
      MessagesOf(events[..n], parse) + if reading.Typed? then [reading.message] else []
  }

  /** What the last of the messages that say it says, and nothing when none does. */
  ghost predicate LastSays<T(!new)>(ms: seq<Message>, says: Message -> bool, get: Message -> Option<T>, value: Option<T>) {
    && ((forall m <- ms :: !says(m)) ==> value == None)
    && forall i :: 0 <= i < |ms| && says(ms[i]) && (forall j :: i < j < |ms| ==> !says(ms[j])) ==> value == get(ms[i])
  }

  lemma LastSaysSnoc<T(!new)>(ms: seq<Message>, m: Message, says: Message -> bool, get: Message -> Option<T>, value: Option<T>)
    requires LastSays(ms, says, get, value)
    ensures LastSays(ms + [m], says, get, if says(m) then get(m) else value)
  {
    var now, last := ms + [m], if says(m) then get(m) else value;
    assert now[|ms|] == m;
    if forall x <- now :: !says(x) {
      assert forall x <- ms :: x in now;
    }
    forall i | 0 <= i < |now| && says(now[i]) && (forall j :: i < j < |now| ==> !says(now[j])) ensures last == get(now[i]) {
      if i < |ms| {
        assert !says(now[|ms|]);
        assert forall j :: i < j < |ms| ==> now[j] == ms[j];
      }
    }
  }

  predicate Starts(m: Message, block: BlockIndex) {
    m.kind == "content_block_start" && m.fields.index == block
  }

  /** A block whose type is given as text starts empty; one without a type counts as text, and keeps what is there. */
  predicate StartsEmpty(m: Message, block: BlockIndex) {
    Starts(m, block) && m.fields.block == Some(Some("text"))
  }

  predicate OfText(m: Message) {
    m.fields.block.None? || m.fields.block.value.None? || m.fields.block.value.value == "text"
  }

  /** The block was last started, before the k-th message, as one of text. */
  predicate InText(ms: seq<Message>, k: nat, block: BlockIndex)
    requires k <= |ms|
  {
    exists s :: 0 <= s < k && Starts(ms[s], block) && OfText(ms[s]) && forall t :: s < t < k ==> !Starts(ms[t], block)
  }

  /** The k-th message brings text that is part of the block in the end. */
  predicate Brings(ms: seq<Message>, k: nat, block: BlockIndex)
    requires k < |ms|
  {
    && ms[k].kind == "content_block_delta" && ms[k].fields.index == block && ms[k].fields.textDelta.Some?
    && InText(ms, k, block)
    && forall t :: k < t < |ms| ==> !StartsEmpty(ms[t], block)
  }

  /** What the first n messages bring, in order. */
  function Brought(ms: seq<Message>, n: nat, block: BlockIndex): string
    requires n <= |ms|
  {
    if n == 0 then ""
    else Brought(ms, n - 1, block) + if Brings(ms, n - 1, block) then ms[n - 1].fields.textDelta.value else ""
  }

  predicate HasText(ms: seq<Message>, block: BlockIndex) {
    exists k :: 0 <= k < |ms| && (StartsEmpty(ms[k], block) || Brings(ms, k, block))
  }

  ghost predicate ShowsTexts(ms: seq<Message>, parts: map<BlockIndex, string>) {
    forall block :: (block in parts <==> HasText(ms, block)) && (block in parts ==> parts[block] == Brought(ms, |ms|, block))
  }

  ghost predicate ShowsTypes(ms: seq<Message>, types: map<BlockIndex, string>) {
    forall block :: (block in types && types[block] == "text" <==> InText(ms, |ms|, block))
  }

  function InputOf(m: Message): Option<nat> {
    m.fields.inputTokens
  }

  predicate SaysInput(m: Message) {
    m.kind == "message_start"
  }

  function OutputOf(m: Message): Option<nat> {
    m.fields.outputTokens
  }

  predicate SaysOutput(m: Message) {
    m.kind == "message_delta" && m.fields.outputTokens.Some?
  }

  function StopOf(m: Message): Option<string> {
    m.fields.stopReason
  }

  predicate SaysStop(m: Message) {
    m.kind == "message_delta" && m.fields.stopReason.Some?
  }

  function ReadOf(m: Message): Option<nat> {
    m.fields.cacheRead
  }

  predicate SaysRead(m: Message) {
    m.kind in {"message_start", "message_delta"} && m.fields.cacheRead.Some?
  }

  function CreationOf(m: Message): Option<nat> {
    m.fields.cacheCreation
  }

  predicate SaysCreation(m: Message) {
    m.kind in {"message_start", "message_delta"} && m.fields.cacheCreation.Some?
  }

  /**
   * The answer after a list of messages, by their types and fields alone: input tokens of the last message_start, stop
   * reason and output tokens of the last message_delta that has them, cache counts of the last message of either type that
   * has them, and in each block the text deltas since it last started empty, in order, of the times it was a text block.
   */
  ghost predicate Shows(ms: seq<Message>, answer: Answer) {
    && LastSays(ms, SaysInput, InputOf, answer.inputTokens)
    && LastSays(ms, SaysOutput, OutputOf, answer.outputTokens)
    && LastSays(ms, SaysStop, StopOf, answer.stopReason)
    && LastSays(ms, SaysRead, ReadOf, answer.cacheRead)
    && LastSays(ms, SaysCreation, CreationOf, answer.cacheCreation)
    && ShowsTexts(ms, answer.textParts)
  }

  lemma HandledCounts(answer: Answer, m: Message, next: Answer)
    requires Handled(answer, m.kind, m.fields) == Going(next)
    ensures next.inputTokens == if SaysInput(m) then InputOf(m) else answer.inputTokens
    ensures next.outputTokens == if SaysOutput(m) then OutputOf(m) else answer.outputTokens
    ensures next.stopReason == if SaysStop(m) then StopOf(m) else answer.stopReason
    ensures next.cacheRead == if SaysRead(m) then ReadOf(m) else answer.cacheRead
    ensures next.cacheCreation == if SaysCreation(m) then CreationOf(m) else answer.cacheCreation
  {}

  lemma CountsShow(ms: seq<Message>, answer: Answer, m: Message, next: Answer)
    requires Shows(ms, answer) && Handled(answer, m.kind, m.fields) == Going(next) && ShowsTexts(ms + [m], next.textParts)
    ensures Shows(ms + [m], next)
  {
    HandledCounts(answer, m, next);
    LastSaysSnoc(ms, m, SaysInput, InputOf, answer.inputTokens);
    LastSaysSnoc(ms, m, SaysOutput, OutputOf, answer.outputTokens);
    LastSaysSnoc(ms, m, SaysStop, StopOf, answer.stopReason);
    LastSaysSnoc(ms, m, SaysRead, ReadOf, answer.cacheRead);
    LastSaysSnoc(ms, m, SaysCreation, CreationOf, answer.cacheCreation);
    hide LastSays, ShowsTexts, Handled, SaysInput, SaysOutput, SaysStop, SaysRead, SaysCreation;
  }

  lemma InTextSnoc(ms: seq<Message>, m: Message, k: nat, block: BlockIndex)
    requires k <= |ms|
    ensures InText(ms + [m], k, block) <==> InText(ms, k, block)
    ensures InText(ms + [m], |ms| + 1, block) <==> if Starts(m, block) then OfText(m) else InText(ms, |ms|, block)
  {
    hide Starts, OfText;
    var now := ms + [m];
    assert now[|ms|] == m && forall i :: 0 <= i < |ms| ==> now[i] == ms[i];
    if Starts(m, block) && OfText(m) {
      assert InText(now, |now|, block);
    }
    if s :| 0 <= s < |ms| && Starts(ms[s], block) && OfText(ms[s]) && forall t :: s < t < |ms| ==> !Starts(ms[t], block) {
      assert !Starts(m, block) ==> InText(now, |now|, block);
    }
    if s :| 0 <= s < |now| && Starts(now[s], block) && OfText(now[s]) && forall t :: s < t < |now| ==> !Starts(now[t], block) {
      assert Starts(m, block) ==> s == |ms|;
      assert !Starts(m, block) ==> InText(ms, |ms|, block);
    }
  }

  lemma BringsSnoc(ms: seq<Message>, m: Message, k: nat, block: BlockIndex)
    requires k < |ms|
    ensures Brings(ms + [m], k, block) <==> Brings(ms, k, block) && !StartsEmpty(m, block)
  {
    var now := ms + [m];
    assert now[|ms|] == m && forall i :: 0 <= i < |ms| ==> now[i] == ms[i];
    InTextSnoc(ms, m, k, block);
    hide InText, StartsEmpty;
  }

  lemma {:induction false} BroughtSnoc(ms: seq<Message>, m: Message, n: nat, block: BlockIndex)
    requires n <= |ms|
    ensures Brought(ms + [m], n, block) == if StartsEmpty(m, block) then "" else Brought(ms, n, block)
  {
    if n > 0 {
      BroughtSnoc(ms, m, n - 1, block);
      BringsSnoc(ms, m, n - 1, block);
      hide Brings, StartsEmpty;
    }
  }

  lemma HasTextSnoc(ms: seq<Message>, m: Message, block: BlockIndex)
    ensures HasText(ms + [m], block) <==> HasText(ms, block) || StartsEmpty(m, block) || Brings(ms + [m], |ms|, block)
  {
    hide Brings, StartsEmpty;
    var now := ms + [m];
    assert now[|ms|] == m;
    forall k | 0 <= k < |ms| ensures Brings(now, k, block) <==> Brings(ms, k, block) && !StartsEmpty(m, block) {
      BringsSnoc(ms, m, k, block);
    }
    if k :| 0 <= k < |ms| && (StartsEmpty(ms[k], block) || Brings(ms, k, block)) {
      assert now[k] == ms[k];
      assert StartsEmpty(m, block) || HasText(now, block);
    }
    if StartsEmpty(m, block) || Brings(now, |ms|, block) {
      assert HasText(now, block);
    }
  }

  /** A text delta for the block. */
  predicate Adds(m: Message, block: BlockIndex) {
    m.kind == "content_block_delta" && m.fields.index == block && m.fields.textDelta.Some?
  }

  lemma LastBrings(ms: seq<Message>, m: Message, block: BlockIndex)
    ensures Brings(ms + [m], |ms|, block) <==> Adds(m, block) && InText(ms, |ms|, block)
    ensures Brought(ms + [m], |ms| + 1, block)
            == (if StartsEmpty(m, block) then "" else Brought(ms, |ms|, block))
               + if Adds(m, block) && InText(ms, |ms|, block) then m.fields.textDelta.value else ""
  {
    assert (ms + [m])[|ms|] == m;
    InTextSnoc(ms, m, |ms|, block);
    BroughtSnoc(ms, m, |ms|, block);
    hide InText, StartsEmpty;
  }

  /** What one message does to one block of the answer. */
  lemma HandledBlock(answer: Answer, m: Message, next: Answer, block: BlockIndex)
    requires Handled(answer, m.kind, m.fields) == Going(next)
    ensures block in next.blockTypes && next.blockTypes[block] == "text" <==>
            if Starts(m, block) then OfText(m) else block in answer.blockTypes && answer.blockTypes[block] == "text"
    ensures var adds := Adds(m, block) && block in answer.blockTypes && answer.blockTypes[block] == "text";
            var before := if block in answer.textParts && !StartsEmpty(m, block) then answer.textParts[block] else "";
            && (block in next.textParts <==> block in answer.textParts || StartsEmpty(m, block) || adds)
            && (block in next.textParts ==> next.textParts[block] == before + if adds then m.fields.textDelta.value else "")
  {}

  lemma BlockShows(ms: seq<Message>, answer: Answer, m: Message, next: Answer, block: BlockIndex)
    requires ShowsTexts(ms, answer.textParts) && ShowsTypes(ms, answer.blockTypes)
    requires Handled(answer, m.kind, m.fields) == Going(next)
    ensures (block in next.textParts <==> HasText(ms + [m], block))
            && (block in next.textParts ==> next.textParts[block] == Brought(ms + [m], |ms| + 1, block))
    ensures block in next.blockTypes && next.blockTypes[block] == "text" <==> InText(ms + [m], |ms| + 1, block)
  {
    assert block in answer.textParts <==> HasText(ms, block);
    assert block in answer.textParts ==> answer.textParts[block] == Brought(ms, |ms|, block);
    assert block in answer.blockTypes && answer.blockTypes[block] == "text" <==> InText(ms, |ms|, block);
    InTextSnoc(ms, m, |ms|, block);
    HasTextSnoc(ms, m, block);
    LastBrings(ms, m, block);
    HandledBlock(answer, m, next, block);
    NoTextBrought(ms, |ms|, block);
    hide *;
  }

  lemma {:induction false} NoTextBrought(ms: seq<Message>, n: nat, block: BlockIndex)
    requires n <= |ms|
    ensures !HasText(ms, block) ==> Brought(ms, n, block) == ""
  {
    if n > 0 {
      NoTextBrought(ms, n - 1, block);
      hide Brings;
    }
  }

  lemma HandledShows(ms: seq<Message>, answer: Answer, m: Message, next: Answer)
    requires Shows(ms, answer) && ShowsTypes(ms, answer.blockTypes) && Handled(answer, m.kind, m.fields) == Going(next)
    ensures Shows(ms + [m], next) && ShowsTypes(ms + [m], next.blockTypes)
  {
    TextsShow(ms, answer, m, next);
    CountsShow(ms, answer, m, next);
    hide *;
  }

  lemma TextsShow(ms: seq<Message>, answer: Answer, m: Message, next: Answer)
    requires ShowsTexts(ms, answer.textParts) && ShowsTypes(ms, answer.blockTypes)
    requires Handled(answer, m.kind, m.fields) == Going(next)
    ensures ShowsTexts(ms + [m], next.textParts) && ShowsTypes(ms + [m], next.blockTypes)
  {
    hide Handled, HasText, Brought, InText;
    forall block: BlockIndex
      ensures (block in next.textParts <==> HasText(ms + [m], block))
              && (block in next.textParts ==> next.textParts[block] == Brought(ms + [m], |ms + [m]|, block))
      ensures block in next.blockTypes && next.blockTypes[block] == "text" <==> InText(ms + [m], |ms + [m]|, block)
    {
      BlockShows(ms, answer, m, next, block);
    }
  }

  lemma NothingShows()
    ensures Shows([], NOTHING) && ShowsTypes([], map[])
  {}

  /** Reading events that hold no stop and no failure leaves exactly what their messages show. */
  lemma {:induction false} ReadingShows(events: seq<string>, parse: string -> Parsed)
    requires ReadEvents(NOTHING, events, parse).Going?
    ensures var answer := ReadEvents(NOTHING, events, parse).answer;
            Shows(MessagesOf(events, parse), answer) && ShowsTypes(MessagesOf(events, parse), answer.blockTypes)
  {
    hide Shows, ShowsTypes, Handled, ReadMessage;
    if events == [] {
      NothingShows();
    } else {
      var n := |events| - 1;
      var init, e := events[..n], events[n];
      assert events == init + [e];
      ReadConcat(NOTHING, init, [e], parse);
      ReadingShows(init, parse);
      var before := ReadEvents(NOTHING, init, parse).answer;
      assert [e][1..] == [];
      assert ReadEvents(NOTHING, events, parse) == OneEvent(before, e, parse);
      var reading := ReadMessage(e, parse);
      if reading.Typed? {
        HandledShows(MessagesOf(init, parse), before, reading.message, ReadEvents(NOTHING, events, parse).answer);
      } else {
        assert MessagesOf(init, parse) + [] == MessagesOf(init, parse);
      }
    }
  }

  // ---- What a reply holds ----

  predicate AllWhite(s: string) {
    forall i :: 0 <= i < |s| ==> White(s[i])
  }

  /** What is trimmed off is white, and what is left does not start or end with white. */
  lemma {:induction false} TrimMeans(s: string) returns (before: string, after: string)
    ensures s == before + Trim(s) + after && AllWhite(before) && AllWhite(after)
    ensures Trim(s) != "" ==> !White(Trim(s)[0]) && !White(Trim(s)[|Trim(s)| - 1])
    decreases |s|
  {
    hide White;
    if s != "" && White(s[0]) {
      var b, e := TrimMeans(s[1..]);
      before, after := [s[0]] + b, e;
      WhiteConcat([s[0]], b);
      FirstTrimmed(s, b + Trim(s) + e);
      assert before + Trim(s) + after == [s[0]] + (b + Trim(s) + e);
    } else if s != "" && White(s[|s| - 1]) {
      var b, e := TrimMeans(s[..|s| - 1]);
      before, after := b, e + [s[|s| - 1]];
      WhiteConcat(e, [s[|s| - 1]]);
      assert before + Trim(s) + after == (b + Trim(s) + e) + [s[|s| - 1]];
    } else {
      before, after := "", "";
    }
  }

  lemma FirstTrimmed(s: string, rest: string)
    requires s != "" && s[1..] == rest
    ensures s == [s[0]] + rest
  {}

  lemma WhiteConcat(a: string, b: string)
    requires AllWhite(a) && AllWhite(b)
    ensures AllWhite(a + b)
  {}

  lemma BlankMeans(s: string)
    ensures Trim(s) == "" <==> AllWhite(s)
  {
    var before, after := TrimMeans(s);
    hide White;
    if Trim(s) == "" {
      assert s == before + after;
    } else {
      var k := |before|;
      assert s[k] == Trim(s)[0];
    }
  }

  /** A complete message is refused as empty exactly when its text is blank, then as cut off at the token limit. */
  lemma FinishedMeans(answer: Answer)
    ensures var result := Finished(answer);
            && (result == Err(EmptyCompletion) <==> AllWhite(AnswerText(answer)))
            && (result == Err(Truncated) <==> !AllWhite(AnswerText(answer)) && answer.stopReason == Some("max_tokens"))
            && (result.Ok? <==> !AllWhite(AnswerText(answer)) && answer.stopReason != Some("max_tokens"))
            && (result.Ok? ==> result.value == Reply(AnswerText(answer), answer))
  {
    BlankMeans(AnswerText(answer));
    hide AnswerText, AllWhite, Trim;
  }

  /** The text of an answer: the texts of its blocks, by ascending index, a newline between two. */
  ghost predicate TextOf(text: string, parts: map<BlockIndex, string>) {
    exists indices: seq<BlockIndex> ::
      && Increasing(indices) && (forall i :: i in indices <==> i in parts)
      && text == Joined(TextsAt(parts, indices))
  }

  /** What a reply to a stream owes to its events: they go on until a stop, and the reply holds what they show. */
  ghost predicate Replies(events: seq<string>, parse: string -> Parsed, reply: Reply, n: nat)
    requires n < |events|
  {
    && EndsAt(events, n, parse) && IsStop(events[n], parse)
    && Shows(MessagesOf(events[..n], parse), reply.answer)
    && TextOf(reply.text, reply.answer.textParts) && !AllWhite(reply.text) && reply.answer.stopReason != Some("max_tokens")
  }

  lemma OkRepliesShow(text: string, ending: Ending, parse: string -> Parsed)
    requires OfStream(text, ending, parse).Ok?
    ensures exists n :: 0 <= n < |Events(text)| && Replies(Events(text), parse, OfStream(text, ending, parse).value, n)
  {
    var events := Events(text);
    ReadsToTheEnd(NOTHING, events, parse);
    hide OneEvent, Events, Finished, Shows, IsStop, TextOf;
    var n := FirstEnd(events, parse);
    var before := ReadEvents(NOTHING, events[..n], parse);
    StopWhateverBefore(before.answer, events[n], parse);
    ReadingShows(events[..n], parse);
    FinishedMeans(before.answer);
    SortedTextOf(before.answer);
    assert Replies(events, parse, OfStream(text, ending, parse).value, n);
  }

  lemma SortedTextOf(answer: Answer)
    ensures TextOf(AnswerText(answer), answer.textParts)
  {
    SortedSame(answer.textParts.Keys);
  }

  /** An event ends the reading exactly when its message is a stop or an error, or its data is null. */
  lemma EndMeans(event: string, parse: string -> Parsed)
    ensures var reading, now := ReadMessage(event, parse), OneEvent(NOTHING, event, parse);
            && (IsStop(event, parse) <==> reading.Typed? && reading.message.kind == "message_stop")
            && (now == Failed(NullPayload) <==> reading.NullData?)
            && (forall text :: now == Failed(ProviderError(text)) <==>
                  reading.Typed? && reading.message.kind == "error" && reading.message.fields.errorText == text)
            && (now.Going? <==> reading.Ignored? || (reading.Typed? && reading.message.kind !in {"message_stop", "error"}))
  {
    hide ReadMessage;
  }

  /** A stream whose first end is a failure fails with it. */
  lemma FailuresTell(text: string, ending: Ending, parse: string -> Parsed, n: nat)
    requires n < |Events(text)| && EndsAt(Events(text), n, parse) && !IsStop(Events(text)[n], parse)
    ensures var reading := ReadMessage(Events(text)[n], parse);
            OfStream(text, ending, parse) == Err(if reading.NullData? then NullPayload else ProviderError(reading.message.fields.errorText))
  {
    var events := Events(text);
    ReadsToTheEnd(NOTHING, events, parse);
    StopWhateverBefore(ReadEvents(NOTHING, events[..n], parse).answer, events[n], parse);
    EndMeans(events[n], parse);
    hide OneEvent, ReadMessage, Events, ReadEvents, IsStop;
  }

  // ---- The lines of an event ----

  predicate NoNewline(s: string) {
    forall i :: 0 <= i < |s| ==> s[i] != '\n'
  }

  lemma JoinedCons(line: string, rest: seq<string>)
    ensures rest != [] ==> Joined([line] + rest) == line + "\n" + Joined(rest)
    ensures Joined([line]) == line
  {
    assert ([line] + rest)[1..] == rest;
  }

  lemma JoinedPush(c: char, line: string, rest: seq<string>)
    ensures Joined([[c] + line] + rest) == [c] + Joined([line] + rest)
  {
    JoinedCons([c] + line, rest);
    JoinedCons(line, rest);
    if rest == [] {
      assert [[c] + line] + rest == [[c] + line] && [line] + rest == [line];
    }
  }

  /** The lines of a text are what its newlines separate. */
  lemma {:induction false} LinesRoundTrip(text: string)
    ensures Joined(Lines(text)) == text
  {
    if text == "" {
      JoinedCons("", []);
    } else {
      var c, rest := text[0], Lines(text[1..]);
      LinesRoundTrip(text[1..]);
      JoinedCons("", rest);
      JoinedPush(c, rest[0], rest[1..]);
      assert text == [c] + text[1..] && rest == [rest[0]] + rest[1..];
      assert "" + "\n" + text[1..] == "\n" + text[1..];
      hide Joined;
    }
  }

  lemma {:induction false} LinesHoldNone(text: string)
    ensures forall l <- Lines(text) :: NoNewline(l)
  {
    if text != "" {
      var rest := Lines(text[1..]);
      LinesHoldNone(text[1..]);
      assert rest == [rest[0]] + rest[1..] && rest[0] in rest;
      assert forall l <- rest[1..] :: l in rest;
    }
  }

  lemma {:induction false} LinesJoined(lines: seq<string>)
    requires lines != [] && forall l <- lines :: NoNewline(l)
    ensures Lines(Joined(lines)) == lines
    decreases |lines|, |lines[0]|
  {
    var first, rest := lines[0], lines[1..];
    assert lines == [first] + rest && first in lines;
    assert forall l <- rest :: l in lines;
    JoinedCons(first, rest);
    if first == "" {
      if rest != [] {
        LinesJoined(rest);
        assert Joined(lines)[1..] == Joined(rest) && Joined(lines)[0] == '\n';
      }
    } else {
      var shorter := [first[1..]] + rest;
      assert shorter[1..] == rest && shorter[0] == first[1..];
      LinesJoined(shorter);
      assert first == [first[0]] + first[1..];
      JoinedPush(first[0], first[1..], rest);
      hide Joined;
      assert Joined(lines)[1..] == Joined(shorter) && Joined(lines)[0] == first[0];
    }
  }

  lemma NoNewlineConcat(a: string, b: string)
    requires NoNewline(a) && NoNewline(b)
    ensures NoNewline(a + b)
  {}

  predicate Names(line: string) {
    "event: " <= line
  }

  /** The last line that names the event does; the data is that of the data lines, in order. */
  lemma {:induction false} EventNameMeans(lines: seq<string>)
    ensures (forall l <- lines :: !Names(l)) ==> EventName(lines) == ""
    ensures forall i :: 0 <= i < |lines| && Names(lines[i]) && (forall j :: i < j < |lines| ==> !Names(lines[j])) ==>
              EventName(lines) == Trim(lines[i][7..])
  {
    if lines != [] {
      var n := |lines| - 1;
      EventNameMeans(lines[..n]);
      assert lines[n] in lines;
      assert forall l <- lines[..n] :: l in lines;
    }
  }

  lemma {:induction false} DataLinesConcat(xs: seq<string>, ys: seq<string>)
    ensures DataLines(xs + ys) == DataLines(xs) + DataLines(ys)
  {
    if ys == [] {
      assert xs + ys == xs && DataLines(xs) + [] == DataLines(xs);
    } else {
      var n := |ys| - 1;
      DataLinesConcat(xs, ys[..n]);
      assert (xs + ys)[..|xs| + n] == xs + ys[..n];
    }
  }

  lemma DataLineMeans(line: string, data: string)
    ensures line == "data: " + data ==> DataLines([line]) == [data]
    ensures !("data: " <= line) ==> DataLines([line]) == []
  {
    assert [line][..0] == [];
    if line == "data: " + data {
      assert line[..6] == "data: " && line[0] == 'd' && line[6..] == data;
    }
  }

  lemma DataLineIsData(data: string)
    ensures var line := "data: " + data; !Names(line) && "data: " <= line && line[6..] == data && (NoNewline(data) ==> NoNewline(line))
  {
    var line := "data: " + data;
    assert line[0] == 'd' && line[..6] == "data: ";
    if NoNewline(data) {
      NoNewlineConcat("data: ", data);
    }
  }

  lemma NameLineIsName(name: string)
    ensures var line := "event: " + name; Names(line) && line[7..] == name && (NoNewline(name) ==> NoNewline(line))
  {
    var line := "event: " + name;
    assert line[..7] == "event: ";
    if NoNewline(name) {
      NoNewlineConcat("event: ", name);
    }
  }

  /** An event as the provider writes it: a name, then lines of data. */
  function Wire(name: string, data: seq<string>): seq<string> {
    if data == [] then ["event: " + name] else Wire(name, data[..|data| - 1]) + ["data: " + data[|data| - 1]]
  }

  lemma OneMoreLine(lines: seq<string>, data: string)
    ensures EventName(lines + ["data: " + data]) == EventName(lines) && DataLines(lines + ["data: " + data]) == DataLines(lines) + [data]
  {
    DataLineIsData(data);
    var line := "data: " + data;
    assert (lines + [line])[..|lines|] == lines && (lines + [line])[|lines|] == line;
    hide Trim;
  }

  lemma {:induction false} WireMeans(name: string, data: seq<string>)
    requires NoNewline(name) && Trim(name) == name && forall d <- data :: NoNewline(d)
    ensures Wire(name, data) != [] && forall l <- Wire(name, data) :: NoNewline(l)
    ensures EventName(Wire(name, data)) == name && DataLines(Wire(name, data)) == data
  {
    if data == [] {
      NameLineIsName(name);
      assert Wire(name, data)[..0] == [];
    } else {
      var n := |data| - 1;
      assert data == data[..n] + [data[n]];
      WireMeans(name, data[..n]);
      DataLineIsData(data[n]);
      OneMoreLine(Wire(name, data[..n]), data[n]);
      hide EventName, DataLines, NoNewline, Names;
    }
  }

  /** It reads as a message of the type its data gives, else of its name, with the fields of its data joined by newlines. */
  lemma WireReads(name: string, data: seq<string>, parse: string -> Parsed)
    requires NoNewline(name) && Trim(name) == name && name != "" && forall d <- data :: NoNewline(d)
    ensures ReadMessage(Joined(Wire(name, data)), parse) ==
            if data == [] then Typed(Message(name, NO_FIELDS))
            else match parse(Joined(data))
                 case NotJson => Ignored
                 case JsonNull => NullData
                 case Json(kind, fields) => Typed(Message(if kind.Some? then kind.value else name, fields))
  {
    WireMeans(name, data);
    LinesJoined(Wire(name, data));
    hide Wire, Joined, Lines, EventName, DataLines;
  }
}
