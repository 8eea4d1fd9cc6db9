/**
 The two translations of an Anthropic answer, the streaming and the whole-message one,
 and their agreement.
 */
module AnthropicStream {
  import opened Basics
  import opened OpenAI

  /** The `type` strings the gateway knows; anything else is `Other`. */
  datatype BlockKind = Text | ToolUse | OtherBlock
  datatype DeltaKind = InputJsonDelta | OtherDelta
  datatype EventKind =
    | MessageStart | ContentBlockStart | ContentBlockDelta | MessageDelta | MessageStop | ErrorEvent | OtherEvent

  datatype Block = Block(kind: BlockKind, id: string, name: string, text: string, input: string)

  datatype BlockDelta = BlockDelta(kind: DeltaKind, text: string, partialJson: string, stopReason: string)

  datatype Event = Event(
    kind: EventKind,
    index: int,
    block: Option<Block>,
    delta: Option<BlockDelta>,
    messageId: Option<string>,
    errorMessage: Option<string>)

  /** A line of the upstream stream, as the scanner and the JSON decoder see it. */
  datatype Line = NotData | Malformed | Data(event: Event)

  function TranslateStopReason(reason: string): string {
    match reason
    case "end_turn" => "stop"
    case "max_tokens" => "length"
    case "stop_sequence" => "stop"
    case "tool_use" => "tool_calls"
    case _ => reason
  }

  // ---------------------------------------------------------------- the whole-message translation

  datatype Message = Message(content: Option<string>, toolCalls: seq<ToolCall>)

  function TextOf(blocks: seq<Block>): string {
    if blocks == [] then ""
    else (if blocks[0].kind == Text then blocks[0].text else "") + TextOf(blocks[1..])
  }

  function CallOf(block: Block): ToolCall {
    ToolCall(None, block.id, "function", block.name, if block.input == "" then "{}" else block.input)
  }

  function CallsOf(blocks: seq<Block>): seq<ToolCall> {
    if blocks == [] then []
    else (if blocks[0].kind == ToolUse then [CallOf(blocks[0])] else []) + CallsOf(blocks[1..])
  }

  lemma Regroup<T>(a: seq<T>, b: seq<T>, c: seq<T>)
    ensures (a + b) + c == a + (b + c)
  {
  }

  /** Block by block: text blocks give their text, tool blocks a function call with their id, name and input,
      or an empty object for none, and other blocks nothing. */
  lemma {:induction false} MessageBlockByBlock(before: seq<Block>, block: Block)
    ensures TextOf(before + [block]) == TextOf(before) + if block.kind == Text then block.text else ""
    ensures CallsOf(before + [block])
         == CallsOf(before)
            + if block.kind != ToolUse then []
              else [ToolCall(None, block.id, "function", block.name, if |block.input| > 0 then block.input else "{}")]
  {
    var all := before + [block];
    if before == [] {
      assert all == [block] && all[1..] == [];
    } else {
      assert all[0] == before[0] && all[1..] == before[1..] + [block];
      MessageBlockByBlock(before[1..], block);
      var call := if block.kind == ToolUse then [CallOf(block)] else [];
      Regroup(if before[0].kind == ToolUse then [CallOf(before[0])] else [], CallsOf(before[1..]), call);
      Regroup(if before[0].kind == Text then before[0].text else "", TextOf(before[1..]),
              if block.kind == Text then block.text else "");
    }
  }

  /** The text and tool calls of the message, with null content only for a purely tool-calling turn. */
  method TranslateResponse(blocks: seq<Block>, stopReason: string) returns (message: Message, finishReason: string)
    ensures message.toolCalls == CallsOf(blocks)
    ensures message.content == if CallsOf(blocks) != [] && TextOf(blocks) == "" then None else Some(TextOf(blocks))
    ensures finishReason == TranslateStopReason(stopReason)
  {
    var content := "";
    var toolCalls: seq<ToolCall> := [];
    for i := 0 to |blocks|
      invariant content + TextOf(blocks[i..]) == TextOf(blocks)
      invariant toolCalls + CallsOf(blocks[i..]) == CallsOf(blocks)
    {
      assert blocks[i..][1..] == blocks[i + 1..];
      match blocks[i].kind {
        case Text =>
          Regroup(content, blocks[i].text, TextOf(blocks[i + 1..]));
          content := content + blocks[i].text;
        case ToolUse =>
          var args := blocks[i].input;
          if args == "" {
            args := "{}";
          }
          Regroup(toolCalls, [CallOf(blocks[i])], CallsOf(blocks[i + 1..]));
          toolCalls := toolCalls + [ToolCall(None, blocks[i].id, "function", blocks[i].name, args)];
        case OtherBlock =>
      }
    }
    assert content + "" == content && toolCalls + [] == toolCalls;
    message := Message(if |toolCalls| > 0 && |content| == 0 then None else Some(content), toolCalls);
    finishReason := TranslateStopReason(stopReason);
  }

  // ---------------------------------------------------------------- the streaming translation

  /** `tools` maps an upstream block index to the tool-call index given out for it. */
  datatype StreamState = StreamState(messageId: string, tools: map<int, int>, next: int)

  const FRESH := StreamState("", map[], 0)

  function Emit(messageId: string, model: string, delta: Delta): StreamEvent {
    ChunkEvent(StreamChunk(messageId, model, delta, None))
  }

  function OpeningCall(index: int, block: Block): ToolCall {
    ToolCall(Some(index), block.id, "function", block.name, "")
  }

  function FragmentCall(index: int, json: string): ToolCall {
    ToolCall(Some(index), "", "", "", json)
  }

  /** What one line does to the state and emits, and whether it ends the stream. */
  function OnLine(st: StreamState, line: Line, model: string): (StreamState, seq<StreamEvent>, bool) {
    match line
    case NotData => (st, [], false)
    case Malformed => (st, [Failed("failed to parse event")], true)
    case Data(e) =>
      match e.kind
      case MessageStart => (if e.messageId.Some? then st.(messageId := e.messageId.value) else st, [], false)
      case ContentBlockStart =>
        if e.block.Some? && e.block.value.kind == ToolUse then
          (st.(tools := st.tools[e.index := st.next], next := st.next + 1),
           [Emit(st.messageId, model, Delta("", [OpeningCall(st.next, e.block.value)]))], false)
        else (st, [], false)
      case ContentBlockDelta => (st, OnDelta(st, e, model), false)
      case MessageDelta =>
        (st,
         if e.delta.Some? && e.delta.value.stopReason != "" then
           [ChunkEvent(StreamChunk(st.messageId, model, Delta("", []),
                                   Some(TranslateStopReason(e.delta.value.stopReason))))]
         else [],
         false)
      case ErrorEvent => (st, [Failed(ErrorText(e))], true)
      case MessageStop => (st, [Done], true)
      case OtherEvent => (st, [], false)
  }

  function OnDelta(st: StreamState, e: Event, model: string): seq<StreamEvent> {
    if e.delta.None? then []
    else if e.delta.value.kind == InputJsonDelta then
      if e.index in st.tools && e.delta.value.partialJson != "" then
        [Emit(st.messageId, model, Delta("", [FragmentCall(st.tools[e.index], e.delta.value.partialJson)]))]
      else []
    else if e.delta.value.text != "" then [Emit(st.messageId, model, Delta(e.delta.value.text, []))]
    else []
  }

  function ErrorText(e: Event): string {
    if e.errorMessage.Some? && e.errorMessage.value != ""
    then "anthropic stream error: " + e.errorMessage.value else "anthropic stream error"
  }

  /** Everything emitted from state `st` on; a broken upstream read is reported at the end. */
  function Streamed(st: StreamState, lines: seq<Line>, broken: bool, model: string): seq<StreamEvent>
    decreases |lines|
  {
    if lines == [] then (if broken then [Failed("stream read error")] else [])
    else
      var (st', out, ends) := OnLine(st, lines[0], model);
      if ends then out else out + Streamed(st', lines[1..], broken, model)
  }

  /** One event of the stream, against the reader's three state variables. */
  method HandleEvent(event: Event, model: string, messageId0: string, toolIndexByBlock0: map<int, int>,
                     nextToolIndex0: int)
    returns (messageId: string, toolIndexByBlock: map<int, int>, nextToolIndex: int, out: seq<StreamEvent>, ends: bool)
    ensures (StreamState(messageId, toolIndexByBlock, nextToolIndex), out, ends)
         == OnLine(StreamState(messageId0, toolIndexByBlock0, nextToolIndex0), Data(event), model)
    ensures Tracked(StreamState(messageId0, toolIndexByBlock0, nextToolIndex0)) ==>
              Tracked(StreamState(messageId, toolIndexByBlock, nextToolIndex))
              && Continues(out, nextToolIndex0, nextToolIndex)
    ensures ends <==> out != [] && Terminal(out[0])
  {
    LineIsOrderly(StreamState(messageId0, toolIndexByBlock0, nextToolIndex0), Data(event), model);
    messageId, toolIndexByBlock, nextToolIndex := messageId0, toolIndexByBlock0, nextToolIndex0;
    out, ends := [], false;
    match event.kind {
      case MessageStart =>
        if event.messageId.Some? {
          messageId := event.messageId.value;
        }
      case ContentBlockStart =>
        if event.block.Some? && event.block.value.kind == ToolUse {
          var idx := nextToolIndex;
          toolIndexByBlock := toolIndexByBlock[event.index := idx];
          nextToolIndex := nextToolIndex + 1;
          out := [Emit(messageId, model, Delta("", [OpeningCall(idx, event.block.value)]))];
        }
      case ContentBlockDelta =>
        if event.delta.None? {
          return;
        }
        match event.delta.value.kind {
          case InputJsonDelta =>
            if event.index !in toolIndexByBlock || event.delta.value.partialJson == "" {
              return;
            }
            var idx := toolIndexByBlock[event.index];
            out := [Emit(messageId, model, Delta("", [FragmentCall(idx, event.delta.value.partialJson)]))];
          case OtherDelta =>
            if event.delta.value.text != "" {
              out := [Emit(messageId, model, Delta(event.delta.value.text, []))];
            }
        }
      case MessageDelta =>
        if event.delta.Some? && event.delta.value.stopReason != "" {
          var finishReason := TranslateStopReason(event.delta.value.stopReason);
          out := [ChunkEvent(StreamChunk(messageId, model, Delta("", []), Some(finishReason)))];
        }
      case ErrorEvent =>
        var message := "anthropic stream error";
        if event.errorMessage.Some? && event.errorMessage.value != "" {
          message := "anthropic stream error: " + event.errorMessage.value;
        }
        out, ends := [Failed(message)], true;
      case MessageStop =>
        out, ends := [Done], true;
      case OtherEvent =>
    }
  }

  /** With `events` out and `lines[i..]` unread, the reader is on course for `Streamed`. */
  ghost predicate OnCourse(events: seq<StreamEvent>, st: StreamState, lines: seq<Line>, i: nat, broken: bool,
                           model: string)
  {
    i <= |lines| && events + Streamed(st, lines[i..], broken, model) == Streamed(FRESH, lines, broken, model)
  }

  lemma OnCourseAtStart(lines: seq<Line>, broken: bool, model: string)
    ensures OnCourse([], FRESH, lines, 0, broken, model)
  {
    assert lines[0..] == lines;
  }

  lemma OnCourseAtEnd(events: seq<StreamEvent>, st: StreamState, lines: seq<Line>, broken: bool, model: string)
    requires OnCourse(events, st, lines, |lines|, broken, model)
    ensures events + (if broken then [Failed("stream read error")] else []) == Streamed(FRESH, lines, broken, model)
  {
  }

  lemma OnCourseNext(events: seq<StreamEvent>, st: StreamState, lines: seq<Line>, i: nat, broken: bool, model: string)
    requires OnCourse(events, st, lines, i, broken, model) && i < |lines|
    ensures var (st', out, ends) := OnLine(st, lines[i], model);
            if ends then events + out == Streamed(FRESH, lines, broken, model)
            else OnCourse(events + out, st', lines, i + 1, broken, model)
  {
    assert lines[i..][1..] == lines[i + 1..];
    var (st', out, ends) := OnLine(st, lines[i], model);
    assert events + (out + Streamed(st', lines[i + 1..], broken, model))
        == events + out + Streamed(st', lines[i + 1..], broken, model);
  }

  method ReadSSEStream(lines: seq<Line>, broken: bool, model: string) returns (events: seq<StreamEvent>)
    ensures events == Streamed(FRESH, lines, broken, model)
    ensures WellIndexed(events, 0)
    ensures forall k :: 0 <= k < |events| - 1 ==> !Terminal(events[k])
  {
    EveryStreamIsOrderly(FRESH, lines, broken, model);
    events := [];
    var messageId := "";
    var toolIndexByBlock: map<int, int> := map[];
    var nextToolIndex := 0;
    OnCourseAtStart(lines, broken, model);
    for i := 0 to |lines|
      invariant OnCourse(events, StreamState(messageId, toolIndexByBlock, nextToolIndex), lines, i, broken, model)
    {
      OnCourseNext(events, StreamState(messageId, toolIndexByBlock, nextToolIndex), lines, i, broken, model);
      if lines[i].NotData? {
        assert events + [] == events;
        continue;
      }
      if lines[i].Malformed? {
        events := events + [Failed("failed to parse event")];
        return;
      }
      var out, ends;
      messageId, toolIndexByBlock, nextToolIndex, out, ends :=
        HandleEvent(lines[i].event, model, messageId, toolIndexByBlock, nextToolIndex);
      events := events + out;
      if ends {
        return;
      }
    }
    OnCourseAtEnd(events, StreamState(messageId, toolIndexByBlock, nextToolIndex), lines, broken, model);
    if broken {
      events := events + [Failed("stream read error")];
    } else {
      assert events + [] == events;
    }
  }

  // ---------------------------------------------------------------- every stream

  ghost predicate Terminal(event: StreamEvent) {
    event.Done? || event.Failed?
  }

  /** Tool-call indices are given out 0, 1, 2, ... by opening chunks, starting from `next`, and every
      other fragment names an index already given out. */
  ghost predicate WellIndexed(events: seq<StreamEvent>, next: int)
    decreases |events|
  {
    events == [] ||
    match events[0]
    case ChunkEvent(chunk) =>
      if chunk.delta.toolCalls == [] then WellIndexed(events[1..], next)
      else
        |chunk.delta.toolCalls| == 1
        && var call := chunk.delta.toolCalls[0];
           if call.kind == "function" then call.index == Some(next) && WellIndexed(events[1..], next + 1)
           else call.index.Some? && 0 <= call.index.value < next && WellIndexed(events[1..], next)
    case _ => WellIndexed(events[1..], next)
  }

  /** For every upstream stream whatsoever: indices are dense and stable, and a terminal event, if
      there is one, is the last. */
  lemma {:induction false} EveryStreamIsOrderly(st: StreamState, lines: seq<Line>, broken: bool, model: string)
    requires Tracked(st)
    ensures WellIndexed(Streamed(st, lines, broken, model), st.next)
    ensures forall k :: 0 <= k < |Streamed(st, lines, broken, model)| - 1 ==>
              !Terminal(Streamed(st, lines, broken, model)[k])
    decreases |lines|
  {
    if lines != [] {
      var (st', out, ends) := OnLine(st, lines[0], model);
      LineIsOrderly(st, lines[0], model);
      if !ends {
        EveryStreamIsOrderly(st', lines[1..], broken, model);
        OrderlyAppend(out, Streamed(st', lines[1..], broken, model), st.next, st'.next);
      }
    }
  }

  ghost predicate Tracked(st: StreamState) {
    st.next >= 0 && forall b :: b in st.tools ==> 0 <= st.tools[b] < st.next
  }

  /** One line emits at most one event.  As long as every index in use has been given out, it opens a
      call under the next free index, or refers to an index given out before, and leaves it so; and the
      reader stops exactly at a terminal event. */
  lemma LineIsOrderly(st: StreamState, line: Line, model: string)
    ensures var (st', out, ends) := OnLine(st, line, model);
            && |out| <= 1 && (ends <==> out != [] && Terminal(out[0]))
            && (Tracked(st) ==> Tracked(st') && Continues(out, st.next, st'.next))
  {
    var (st', out, ends) := OnLine(st, line, model);
    if out != [] {
      assert out[1..] == [];
    }
  }

  /** At most one event, well indexed from `next`, leaves the next free index at `next'`. */
  ghost predicate Continues(out: seq<StreamEvent>, next: int, next': int) {
    |out| <= 1 && WellIndexed(out, next) && (out == [] ==> next' == next)
    && (out != [] ==> next' == if Opens(out[0]) then next + 1 else next)
  }

  ghost predicate Opens(event: StreamEvent) {
    event.ChunkEvent? && event.chunk.delta.toolCalls != [] && event.chunk.delta.toolCalls[0].kind == "function"
  }

  // ---------------------------------------------------------------- how streams end

  /** A line that ends the stream: the proper end, an upstream error or an undecodable event. */
  predicate EndsStream(line: Line) {
    line.Malformed? || (line.Data? && (line.event.kind == MessageStop || line.event.kind == ErrorEvent))
  }

  /** Everything before the first ending line is passed on, and none of it is terminal.  Then a proper end
      comes out as Done; an upstream error as a failure with the upstream's own message, if it has one; an
      undecodable line and a broken read as failures; and an upstream that just stops as nothing. */
  lemma {:induction false} StreamsEndAsUpstreamEnds(st: StreamState, lines: seq<Line>, broken: bool, model: string,
                                                    i: nat) returns (body: seq<StreamEvent>, tail: seq<StreamEvent>)
    requires i <= |lines| && forall j :: 0 <= j < i ==> !EndsStream(lines[j])
    requires i < |lines| ==> EndsStream(lines[i])
    ensures Streamed(st, lines, broken, model) == body + tail && forall e :: e in body ==> e.ChunkEvent?
    ensures i < |lines| && lines[i].Malformed? ==> tail == [Failed("failed to parse event")]
    ensures i < |lines| && lines[i].Data? && lines[i].event.kind == MessageStop ==> tail == [Done]
    ensures i < |lines| && lines[i].Data? && lines[i].event.kind == ErrorEvent ==>
              exists message :: tail == [Failed(message)]
                && (lines[i].event.errorMessage.Some? && lines[i].event.errorMessage.value != "" ==>
                      message == "anthropic stream error: " + lines[i].event.errorMessage.value)
                && (lines[i].event.errorMessage.None? || lines[i].event.errorMessage.value == "" ==>
                      message == "anthropic stream error")
    ensures i == |lines| ==> tail == if broken then [Failed("stream read error")] else []
    decreases i
  {
    if i == 0 {
      body, tail := [], Streamed(st, lines, broken, model);
      assert [] + tail == tail;
    } else {
      var (st', out, ends) := OnLine(st, lines[0], model);
      var rest;
      rest, tail := StreamsEndAsUpstreamEnds(st', lines[1..], broken, model, i - 1);
      body := out + rest;
      assert out + (rest + tail) == (out + rest) + tail;
      assert |out| <= 1 && forall e :: e in out ==> e.ChunkEvent?;
    }
  }

  /** So a client is told of a proper end exactly when the first line that ends the upstream's stream is
      one, and of a failure exactly when that line is another or the read breaks before any. */
  lemma DoneMeansMessageStop(lines: seq<Line>, broken: bool, model: string, i: nat)
    requires i <= |lines| && forall j :: 0 <= j < i ==> !EndsStream(lines[j])
    requires i < |lines| ==> EndsStream(lines[i])
    ensures var events := Streamed(FRESH, lines, broken, model);
            && (Done in events <==> i < |lines| && lines[i].Data? && lines[i].event.kind == MessageStop)
            && ((exists message :: Failed(message) in events) <==>
                  if i < |lines| then lines[i].Malformed? || lines[i].event.kind == ErrorEvent else broken)
  {
    var body, tail := StreamsEndAsUpstreamEnds(FRESH, lines, broken, model, i);
    var events := Streamed(FRESH, lines, broken, model);
    assert forall e :: e in events <==> e in body || e in tail;
    if tail != [] {
      assert tail == [tail[0]];
      assert tail[0].Failed? ==> Failed(tail[0].message) in events;
    }
  }

  /** Every chunk names the requested model, and the message the last start before it announced. */
  lemma {:induction false} ChunksAreLabelled(st: StreamState, lines: seq<Line>, broken: bool, model: string)
    requires forall j :: 0 <= j < |lines| && lines[j].Data? ==> lines[j].event.kind != MessageStart
    ensures forall e :: e in Streamed(st, lines, broken, model) && e.ChunkEvent? ==>
              e.chunk.id == st.messageId && e.chunk.model == model
    decreases |lines|
  {
    if lines != [] {
      var (st', out, ends) := OnLine(st, lines[0], model);
      ChunksAreLabelled(st', lines[1..], broken, model);
    }
  }

  /** The gateway's finish reasons: the four known ones by name, anything else unchanged. */
  lemma StopReasonsInOpenAITerms(reason: string)
    ensures reason == "end_turn" || reason == "stop_sequence" ==> TranslateStopReason(reason) == "stop"
    ensures reason == "max_tokens" ==> TranslateStopReason(reason) == "length"
    ensures reason == "tool_use" ==> TranslateStopReason(reason) == "tool_calls"
    ensures reason != "end_turn" && reason != "stop_sequence" && reason != "max_tokens" && reason != "tool_use" ==>
              TranslateStopReason(reason) == reason
  {
  }

  lemma OrderlyAppend(out: seq<StreamEvent>, rest: seq<StreamEvent>, next: int, next': int)
    requires Continues(out, next, next') && WellIndexed(rest, next')
    requires forall e :: e in out ==> !Terminal(e)
    requires forall k :: 0 <= k < |rest| - 1 ==> !Terminal(rest[k])
    ensures WellIndexed(out + rest, next)
    ensures forall k :: 0 <= k < |out + rest| - 1 ==> !Terminal((out + rest)[k])
  {
    if out == [] {
      assert out + rest == rest;
    } else {
      assert (out + rest)[1..] == rest && (out + rest)[0] == out[0];
    }
  }
}
