/** The gateway side of the stream: one frame per event, one terminal frame at the end. */
module SseWriter {
  import opened Basics
  import opened OpenAI

  const DONE := "[DONE]"
  const TRUNCATED := "upstream stream ended unexpectedly"

  /** The JSON library, both ends.  `parse` yields the delta content of a chunk, "" without one, as the
      browser reads it; `decode` and `reason` yield a whole chunk and an error's message. */
  datatype Codec = Codec(
    chunk: StreamChunk -> string, error: string -> string, parse: string -> Option<string>,
    decode: string -> Option<StreamChunk>, reason: string -> Option<string>)

  /** Encoder output is one line that starts and ends with a brace. */
  predicate OneLineObject(s: string) {
    |s| >= 2 && s[0] == '{' && s[|s| - 1] == '}' && '\n' !in s
  }

  /** Chunks and errors encode on one line each, decode to what they were, and are told apart. */
  ghost predicate Faithful(codec: Codec) {
    && (forall c :: OneLineObject(codec.chunk(c)) && codec.parse(codec.chunk(c)) == Some(c.delta.content)
                    && codec.decode(codec.chunk(c)) == Some(c) && codec.reason(codec.chunk(c)) == None)
    && (forall m :: OneLineObject(codec.error(m)) && codec.parse(codec.error(m)) == Some("")
                    && codec.decode(codec.error(m)) == None && codec.reason(codec.error(m)) == Some(m))
    && (forall c, m :: codec.chunk(c) != codec.error(m))
  }

  function Frame(payload: string): string {
    "data: " + payload + "\n\n"
  }

  function Printed(payloads: seq<string>): string {
    if payloads == [] then "" else Frame(payloads[0]) + Printed(payloads[1..])
  }

  /** The payloads the handler owes for `events`: the chunks under the bound model up to the first
      terminal event, then one terminal payload. */
  function PayloadsOf(codec: Codec, events: seq<StreamEvent>, model: string): seq<string> {
    if events == [] then [codec.error(TRUNCATED)]
    else
      match events[0]
      case Failed(message) => [codec.error(message)]
      case Done => [DONE]
      case ChunkEvent(chunk) => [codec.chunk(chunk.(model := model))] + PayloadsOf(codec, events[1..], model)
      case Nothing => PayloadsOf(codec, events[1..], model)
  }

  class SSEWriter {
    var out: string

    constructor ()
      ensures out == ""
    {
      out := "";
    }

    method WriteEvent(data: string)
      modifies this
      ensures out == old(out) + Frame(data)
      ensures Frame(data) == "data: " + data + "\n\n"
    {
      out := out + "data: " + data + "\n\n";
      assert old(out) + "data: " + data + "\n\n" == old(out) + Frame(data);
    }

    method WriteDone()
      modifies this
      ensures out == old(out) + Frame(DONE) && Frame(DONE) == "data: [DONE]\n\n"
    {
      out := out + "data: [DONE]\n\n";
    }

    /** Writes every payload the events call for, and nothing else. */
    method HandleStreamingCompletion(codec: Codec, events: seq<StreamEvent>, model: string)
      modifies this
      ensures out == old(out) + Printed(PayloadsOf(codec, events, model))
    {
      for i := 0 to |events|
        invariant out + Printed(PayloadsOf(codec, events[i..], model))
               == old(out) + Printed(PayloadsOf(codec, events, model))
      {
        PrintedNext(out, codec, events, i, model);
        match events[i] {
          case Failed(message) =>
            WriteEvent(codec.error(message));
            return;
          case Done =>
            WriteDone();
            return;
          case ChunkEvent(chunk) =>
            WriteEvent(codec.chunk(chunk.(model := model)));
          case Nothing =>
        }
      }
      PrintedOne(codec.error(TRUNCATED));
      WriteEvent(codec.error(TRUNCATED));
    }
  }

  lemma PrintedOne(payload: string)
    ensures Printed([payload]) == Frame(payload)
  {
    assert Printed([payload]) == Frame(payload) + Printed([]) == Frame(payload) + "";
  }

  /** The payload of one event that has one. */
  function PayloadOf(codec: Codec, event: StreamEvent, model: string): string
    requires !event.Nothing?
  {
    if event.Done? then DONE
    else if event.Failed? then codec.error(event.message)
    else codec.chunk(event.chunk.(model := model))
  }

  /** Writing the i-th frame moves it from what is owed to what is out. */
  lemma PrintedNext(out: string, codec: Codec, events: seq<StreamEvent>, i: nat, model: string)
    requires i < |events|
    ensures var rest := Printed(PayloadsOf(codec, events[i + 1..], model));
            out + Printed(PayloadsOf(codec, events[i..], model))
            == if events[i].Nothing? then out + rest
               else if events[i].ChunkEvent? then out + Frame(PayloadOf(codec, events[i], model)) + rest
               else out + Frame(PayloadOf(codec, events[i], model))
  {
    assert events[i..][1..] == events[i + 1..];
    if events[i].ChunkEvent? {
      var payload := PayloadOf(codec, events[i], model);
      var rest := PayloadsOf(codec, events[i + 1..], model);
      assert ([payload] + rest)[1..] == rest;
      assert out + (Frame(payload) + Printed(rest)) == out + Frame(payload) + Printed(rest);
    } else if !events[i].Nothing? {
      PrintedOne(PayloadOf(codec, events[i], model));
    }
  }

  /** A Done event comes before any error. */
  ghost predicate EndsWell(events: seq<StreamEvent>) {
    exists k :: 0 <= k < |events| && events[k].Done? && forall j :: 0 <= j < k ==> !events[j].Failed?
  }

  ghost predicate IsChunk(codec: Codec, payload: string) {
    exists c :: payload == codec.chunk(c)
  }

  ghost predicate IsError(codec: Codec, payload: string) {
    exists m :: payload == codec.error(m)
  }

  /** For every sequence of events: all payloads but the last are chunks and nothing terminal, the last is
      terminal, and it is [DONE] exactly when a Done event precedes any error. */
  lemma {:induction false} OneTerminalFrame(codec: Codec, events: seq<StreamEvent>, model: string)
    requires Faithful(codec)
    ensures Terminated(codec, PayloadsOf(codec, events, model), EndsWell(events))
  {
    if events != [] && (events[0].ChunkEvent? || events[0].Nothing?) {
      OneTerminalFrame(codec, events[1..], model);
      EndsWellTail(events);
      if events[0].ChunkEvent? {
        ChunkInFront(codec, events[0].chunk.(model := model), PayloadsOf(codec, events[1..], model), EndsWell(events));
      }
    } else if events != [] && events[0].Done? {
      assert events[0].Done?;
    } else if events != [] {
      assert OneLineObject(codec.error(events[0].message)) && DONE[0] == '[';
    } else {
      assert OneLineObject(codec.error(TRUNCATED)) && DONE[0] == '[';
    }
  }

  ghost predicate TerminalPayload(codec: Codec, payload: string) {
    payload == DONE || IsError(codec, payload)
  }

  /** The last payload, and no other, is terminal; the others are chunks; and the last is [DONE] exactly
      when `well`. */
  ghost predicate Terminated(codec: Codec, payloads: seq<string>, well: bool) {
    && payloads != []
    && (forall k :: 0 <= k < |payloads| - 1 ==> IsChunk(codec, payloads[k]) && !TerminalPayload(codec, payloads[k]))
    && TerminalPayload(codec, payloads[|payloads| - 1])
    && (payloads[|payloads| - 1] == DONE <==> well)
  }

  lemma ChunkInFront(codec: Codec, chunk: StreamChunk, tail: seq<string>, well: bool)
    requires Faithful(codec) && Terminated(codec, tail, well)
    ensures Terminated(codec, [codec.chunk(chunk)] + tail, well)
  {
    assert OneLineObject(codec.chunk(chunk)) && DONE[0] == '[';
    assert IsChunk(codec, codec.chunk(chunk));
    assert forall k :: 1 <= k <= |tail| ==> ([codec.chunk(chunk)] + tail)[k] == tail[k - 1];
  }

  lemma EndsWellTail(events: seq<StreamEvent>)
    requires events != [] && (events[0].ChunkEvent? || events[0].Nothing?)
    ensures EndsWell(events) <==> EndsWell(events[1..])
  {
    if EndsWell(events) {
      var k :| 0 <= k < |events| && events[k].Done? && forall j :: 0 <= j < k ==> !events[j].Failed?;
      assert events[1..][k - 1].Done? && forall j :: 0 <= j < k - 1 ==> events[1..][j] == events[j + 1];
    }
    if EndsWell(events[1..]) {
      var k :| 0 <= k < |events[1..]| && events[1..][k].Done? && forall j :: 0 <= j < k ==> !events[1..][j].Failed?;
      assert events[k + 1].Done?;
      assert forall j :: 1 <= j < k + 1 ==> events[j] == events[1..][j - 1];
    }
  }

  // ---------------------------------------------------------------- what a client decodes

  ghost predicate Ending(event: StreamEvent) {
    event.Done? || event.Failed?
  }

  /** The chunks sent before the first event that ends the stream. */
  ghost function ChunksOf(events: seq<StreamEvent>): seq<StreamChunk> {
    if events == [] || Ending(events[0]) then []
    else (if events[0].ChunkEvent? then [events[0].chunk] else []) + ChunksOf(events[1..])
  }

  /** The payload decodes to the chunk, with its id, text, tool calls and finish reason as they were and with
      the bound model. */
  ghost predicate Carries(codec: Codec, payload: string, chunk: StreamChunk, model: string) {
    && codec.decode(payload).Some?
    && codec.decode(payload).value.id == chunk.id
    && codec.decode(payload).value.delta.content == chunk.delta.content
    && codec.decode(payload).value.delta.toolCalls == chunk.delta.toolCalls
    && codec.decode(payload).value.finishReason == chunk.finishReason
    && codec.decode(payload).value.model == model
  }

  ghost predicate CarryAll(codec: Codec, payloads: seq<string>, chunks: seq<StreamChunk>, model: string) {
    |payloads| == |chunks| + 1 && forall k :: 0 <= k < |chunks| ==> Carries(codec, payloads[k], chunks[k], model)
  }

  /** One payload for each chunk before the end, in order, and one more. */
  lemma {:induction false} PayloadsCarryChunks(codec: Codec, events: seq<StreamEvent>, model: string)
    requires Faithful(codec)
    ensures CarryAll(codec, PayloadsOf(codec, events, model), ChunksOf(events), model)
  {
    if events != [] && !Ending(events[0]) {
      PayloadsCarryChunks(codec, events[1..], model);
      if events[0].ChunkEvent? {
        CarryOneMore(codec, events[0].chunk, PayloadsOf(codec, events[1..], model), ChunksOf(events[1..]), model);
      } else {
        assert [] + ChunksOf(events[1..]) == ChunksOf(events[1..]);
      }
    }
  }

  lemma CarryOneMore(codec: Codec, chunk: StreamChunk, payloads: seq<string>, chunks: seq<StreamChunk>, model: string)
    requires Faithful(codec) && CarryAll(codec, payloads, chunks, model)
    ensures CarryAll(codec, [codec.chunk(chunk.(model := model))] + payloads, [chunk] + chunks, model)
  {
    var payload := codec.chunk(chunk.(model := model));
    assert codec.decode(payload) == Some(chunk.(model := model));
    forall k | 0 <= k < |chunks| + 1 ensures Carries(codec, ([payload] + payloads)[k], ([chunk] + chunks)[k], model) {
      if k > 0 {
        assert Carries(codec, payloads[k - 1], chunks[k - 1], model);
      }
    }
  }

  /** The last payload is [DONE], or an error with the message the stream failed with, or the report of a
      truncation: by the first event that ends the stream. */
  lemma {:induction false} LastPayloadTellsTheEnd(codec: Codec, events: seq<StreamEvent>, model: string, i: nat)
    requires i <= |events| && forall j :: 0 <= j < i ==> !Ending(events[j])
    requires i < |events| ==> Ending(events[i])
    ensures var payloads := PayloadsOf(codec, events, model);
            && payloads != []
            && (i < |events| && events[i].Done? ==> payloads[|payloads| - 1] == DONE)
            && (i < |events| && events[i].Failed? ==>
                  payloads[|payloads| - 1] == codec.error(events[i].message))
            && (i == |events| ==>
                  payloads[|payloads| - 1] == codec.error("upstream stream ended unexpectedly"))
    decreases i
  {
    if i > 0 {
      LastPayloadTellsTheEnd(codec, events[1..], model, i - 1);
    }
  }

  /** What a client makes of one payload. */
  function Received(codec: Codec, payload: string): StreamEvent {
    if payload == DONE then Done
    else if codec.reason(payload).Some? then Failed(codec.reason(payload).value)
    else if codec.decode(payload).Some? then ChunkEvent(codec.decode(payload).value)
    else Nothing
  }

  function ReceivedAll(codec: Codec, payloads: seq<string>): seq<StreamEvent> {
    if payloads == [] then [] else [Received(codec, payloads[0])] + ReceivedAll(codec, payloads[1..])
  }

  /** A client that decodes what the handler wrote assembles exactly what the events say: the same text,
      tool calls and finish reason, and the same end, with a truncation where the events have none. */
  lemma {:induction false} ClientFoldsTheEvents(codec: Codec, f: Folded, events: seq<StreamEvent>, model: string)
    requires Faithful(codec) && f.ended.None?
    requires forall k :: 0 <= k < |events| - 1 ==> !Ending(events[k])
    ensures var client, meant := Fold(f, ReceivedAll(codec, PayloadsOf(codec, events, model))), Fold(f, events);
            && client.text == meant.text && client.calls == meant.calls && client.finishReason == meant.finishReason
            && client.ended == if meant.ended.Some? then meant.ended else Some(Failed(TRUNCATED))
    decreases |events|
  {
    if events == [] {
      ReceivedLast(codec, f, codec.error(TRUNCATED));
    } else if Ending(events[0]) {
      assert events[1..] == [];
      ReceivedLast(codec, f, PayloadOf(codec, events[0], model));
    } else {
      ClientFoldsTheEvents(codec, FoldEvent(f, events[0]), events[1..], model);
      if events[0].ChunkEvent? {
        ReceivedChunk(codec, f, events[0].chunk, model, PayloadsOf(codec, events[1..], model));
      }
    }
  }

  lemma ReceivedLast(codec: Codec, f: Folded, payload: string)
    ensures Fold(f, ReceivedAll(codec, [payload])) == FoldEvent(f, Received(codec, payload))
  {
    assert [payload][1..] == [] && [Received(codec, payload)][1..] == [];
    assert [Received(codec, payload)] + [] == [Received(codec, payload)];
  }

  lemma ReceivedChunk(codec: Codec, f: Folded, chunk: StreamChunk, model: string, rest: seq<string>)
    requires Faithful(codec)
    ensures Fold(f, ReceivedAll(codec, [codec.chunk(chunk.(model := model))] + rest))
         == Fold(FoldEvent(f, ChunkEvent(chunk)), ReceivedAll(codec, rest))
  {
    var payload := codec.chunk(chunk.(model := model));
    assert OneLineObject(payload) && DONE[0] == '[';
    assert codec.decode(payload) == Some(chunk.(model := model)) && codec.reason(payload) == None;
    assert ([payload] + rest)[1..] == rest;
    assert ([Received(codec, payload)] + ReceivedAll(codec, rest))[1..] == ReceivedAll(codec, rest);
  }
}
