/**
 Writer and parser together, and the whole path from the upstream's message to the text
 the browser shows.
 */
module StreamRoundTrip {
  import opened Basics
  import opened OpenAI
  import opened SseWriter
  import opened SseClient
  import opened AnthropicStream
  import opened AnthropicAgreement

  /** The non-empty contents of the chunks before the first terminal event. */
  function EventTokens(events: seq<StreamEvent>): seq<string> {
    if events == [] then []
    else
      match events[0]
      case Failed(_) => []
      case Done => []
      case ChunkEvent(chunk) =>
        (if chunk.delta.content == "" then [] else [chunk.delta.content]) + EventTokens(events[1..])
      case Nothing => EventTokens(events[1..])
  }

  lemma {:induction false} TokensOfPayloads(codec: Codec, events: seq<StreamEvent>, model: string)
    requires Faithful(codec)
    ensures Tokens(codec, PayloadsOf(codec, events, model)) == EventTokens(events)
  {
    if events == [] || events[0].Failed? {
      var error := codec.error(if events == [] then TRUNCATED else events[0].message);
      assert OneLineObject(error) && codec.parse(error) == Some("");
      TokensOfOne(codec, error);
    } else if events[0].Done? {
      TokensOfOne(codec, DONE);
    } else {
      TokensOfPayloads(codec, events[1..], model);
      if events[0].ChunkEvent? {
        var chunk := events[0].chunk.(model := model);
        assert OneLineObject(codec.chunk(chunk)) && codec.parse(codec.chunk(chunk)) == Some(chunk.delta.content);
        assert codec.chunk(chunk) != DONE;
      }
    }
  }

  lemma {:induction false} PayloadsAreEmittable(codec: Codec, events: seq<StreamEvent>, model: string)
    requires Faithful(codec)
    ensures forall k :: 0 <= k < |PayloadsOf(codec, events, model)| ==> Emittable(PayloadsOf(codec, events, model)[k])
  {
    if events != [] && (events[0].ChunkEvent? || events[0].Nothing?) {
      PayloadsAreEmittable(codec, events[1..], model);
    }
  }

  /** For every sequence of events and every way of cutting the written text into pieces, the parser
      recovers the payloads written, in order, and hands over the contents of the chunks sent before
      the first terminal event. */
  lemma EveryCutRoundTrips(codec: Codec, events: seq<StreamEvent>, model: string, pieces: seq<string>)
    requires Faithful(codec) && Flatten(pieces) == Printed(PayloadsOf(codec, events, model))
    ensures Payloads(Flatten(pieces)) == PayloadsOf(codec, events, model)
    ensures Tokens(codec, Payloads(Flatten(pieces))) == EventTokens(events)
  {
    PayloadsAreEmittable(codec, events, model);
    PayloadsOfPrinted(PayloadsOf(codec, events, model));
    TokensOfPayloads(codec, events, model);
  }

  /** What the browser concatenates is what a client folds, when nothing follows a terminal event. */
  lemma {:induction false} TokensAreFoldedText(f: Folded, events: seq<StreamEvent>)
    requires forall k :: 0 <= k < |events| - 1 ==> !Terminal(events[k])
    ensures Fold(f, events).text == f.text + Flatten(EventTokens(events))
    decreases |events|
  {
    if events == [] {
      assert f.text + "" == f.text;
    } else {
      TokensAreFoldedText(FoldEvent(f, events[0]), events[1..]);
      if Terminal(events[0]) {
        assert events[1..] == [] && f.text + "" == f.text;
      } else if events[0].ChunkEvent? {
        var content := events[0].chunk.delta.content;
        var tail := EventTokens(events[1..]);
        FlattenAppend([content], tail);
        assert Flatten([content]) == Flatten([content][..0]) + content == content;
        if content == "" {
          assert f.text + "" == f.text && [] + tail == tail;
        }
        assert f.text + content + Flatten(tail) == f.text + (content + Flatten(tail));
      }
    }
  }

  /** End to end: for every well-formed upstream message, however fragmented and whatever noise
      surrounds it, and for every way the network cuts the gateway's text, the browser ends up with
      exactly the text of the whole-message translation. */
  lemma BrowserShowsTheMessage(codec: Codec, message: SentMessage, lines: seq<Line>, broken: bool,
                               upstreamModel: string, model: string, pieces: seq<string>)
    requires Faithful(codec) && WellFormed(message.blocks) && WithoutNoise(lines) == SentLines(message)
    requires Flatten(pieces) == Printed(PayloadsOf(codec, Streamed(FRESH, lines, broken, upstreamModel), model))
    ensures Flatten(Tokens(codec, Payloads(Flatten(pieces)))) == TextOf(AssembledAll(message.blocks))
  {
    var events := Streamed(FRESH, lines, broken, upstreamModel);
    EveryCutRoundTrips(codec, events, model, pieces);
    EveryStreamIsOrderly(FRESH, lines, broken, upstreamModel);
    TokensAreFoldedText(NOTHING_YET, events);
    StreamAgreesWithMessage(message, lines, broken, upstreamModel);
    assert "" + Flatten(EventTokens(events)) == Flatten(EventTokens(events));
  }

  /** The frame that ends the gateway's text tells what ended the upstream's: [DONE] exactly for a proper
      end, the upstream's message for its error, a failure otherwise. */
  lemma LastFrameTellsUpstreamsEnd(codec: Codec, lines: seq<Line>, broken: bool, upstreamModel: string, model: string,
                                   i: nat)
    requires Faithful(codec)
    requires i <= |lines| && forall j :: 0 <= j < i ==> !EndsStream(lines[j])
    requires i < |lines| ==> EndsStream(lines[i])
    ensures var payloads := PayloadsOf(codec, Streamed(FRESH, lines, broken, upstreamModel), model);
            && payloads != []
            && (payloads[|payloads| - 1] == DONE <==>
                  i < |lines| && lines[i].Data? && lines[i].event.kind == MessageStop)
            && (i < |lines| && lines[i].Data? && lines[i].event.kind == ErrorEvent
                && lines[i].event.errorMessage.Some? && lines[i].event.errorMessage.value != "" ==>
                  payloads[|payloads| - 1]
                  == codec.error("anthropic stream error: " + lines[i].event.errorMessage.value))
  {
    var body, tail := StreamsEndAsUpstreamEnds(FRESH, lines, broken, upstreamModel, i);
    LastPayloadOf(codec, body, tail, model);
  }

  lemma LastPayloadOf(codec: Codec, body: seq<StreamEvent>, tail: seq<StreamEvent>, model: string)
    requires Faithful(codec) && (forall e :: e in body ==> e.ChunkEvent?)
    requires |tail| <= 1 && (tail != [] ==> Ending(tail[0]))
    ensures var payloads := PayloadsOf(codec, body + tail, model);
            && payloads != []
            && (payloads[|payloads| - 1] == DONE <==> tail == [Done])
            && forall message :: tail == [Failed(message)] ==> payloads[|payloads| - 1] == codec.error(message)
  {
    var events := body + tail;
    forall j | 0 <= j < |body| ensures !Ending(events[j]) {
      assert events[j] == body[j] && body[j] in body;
    }
    LastPayloadTellsTheEnd(codec, events, model, |body|);
    ErrorIsNotDone(codec, if tail != [] && tail[0].Failed? then tail[0].message else TRUNCATED);
  }

  lemma ErrorIsNotDone(codec: Codec, message: string)
    requires Faithful(codec)
    ensures codec.error(message) != DONE
  {
    assert OneLineObject(codec.error(message));
  }

  /** End to end for any client: whoever decodes the frames, however the text was cut, assembles the text,
      the tool calls and the finish reason that the upstream's stream spells. */
  lemma ClientHoldsTheStream(codec: Codec, lines: seq<Line>, broken: bool, upstreamModel: string, model: string,
                             pieces: seq<string>)
    requires Faithful(codec)
    requires Flatten(pieces) == Printed(PayloadsOf(codec, Streamed(FRESH, lines, broken, upstreamModel), model))
    ensures var client := Fold(NOTHING_YET, ReceivedAll(codec, Payloads(Flatten(pieces))));
            var meant := Fold(NOTHING_YET, Streamed(FRESH, lines, broken, upstreamModel));
            && client.text == meant.text && client.calls == meant.calls && client.finishReason == meant.finishReason
            && client.ended == if meant.ended.Some? then meant.ended else Some(Failed(TRUNCATED))
  {
    var events := Streamed(FRESH, lines, broken, upstreamModel);
    EveryCutRoundTrips(codec, events, model, pieces);
    EveryStreamIsOrderly(FRESH, lines, broken, upstreamModel);
    assert forall k :: 0 <= k < |events| - 1 ==> !Terminal(events[k]) ==> !Ending(events[k]);
    ClientFoldsTheEvents(codec, NOTHING_YET, events, model);
  }
}
