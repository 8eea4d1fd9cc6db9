/**
 The streaming and the whole-message translation agree: a client that folds the
 translated stream holds what the translation of the assembled message holds.
 */
module AnthropicAgreement {
  import opened Basics
  import opened OpenAI
  import opened AnthropicStream

  /** A content block as the upstream sends it: opened, delivered in fragments, closed.  Blocks of
      other kinds carry no visible text, but may carry JSON fragments of their own. */
  datatype SentBlock =
    | SentText(index: int, fragments: seq<string>)
    | SentTool(index: int, id: string, name: string, fragments: seq<string>)
    | SentOther(index: int, deltas: seq<BlockDelta>)

  datatype SentMessage = SentMessage(id: string, blocks: seq<SentBlock>, stopReason: string)

  ghost predicate WellFormed(blocks: seq<SentBlock>) {
    && (forall i, j :: 0 <= i < j < |blocks| ==> blocks[i].index != blocks[j].index)
    && (forall i :: 0 <= i < |blocks| && blocks[i].SentOther? ==>
          forall d :: d in blocks[i].deltas ==> d.kind == InputJsonDelta || d.text == "")
  }

  function Concat(fragments: seq<string>): string {
    if fragments == [] then "" else fragments[0] + Concat(fragments[1..])
  }

  // ---------------------------------------------------------------- the message on the wire

  function Line0(kind: EventKind, index: int, block: Option<Block>, delta: Option<BlockDelta>): Line {
    Data(Event(kind, index, block, delta, None, None))
  }

  function TextLines(index: int, fragments: seq<string>): seq<Line> {
    if fragments == [] then []
    else [Line0(ContentBlockDelta, index, None, Some(BlockDelta(OtherDelta, fragments[0], "", "")))]
         + TextLines(index, fragments[1..])
  }

  function JsonLines(index: int, fragments: seq<string>): seq<Line> {
    if fragments == [] then []
    else [Line0(ContentBlockDelta, index, None, Some(BlockDelta(InputJsonDelta, "", fragments[0], "")))]
         + JsonLines(index, fragments[1..])
  }

  function OtherLines(index: int, deltas: seq<BlockDelta>): seq<Line> {
    if deltas == [] then []
    else [Line0(ContentBlockDelta, index, None, Some(deltas[0]))] + OtherLines(index, deltas[1..])
  }

  function BlockLines(b: SentBlock): seq<Line> {
    match b
    case SentText(index, fragments) =>
      [Line0(ContentBlockStart, index, Some(Block(Text, "", "", "", "")), None)] + TextLines(index, fragments)
    case SentTool(index, id, name, fragments) =>
      [Line0(ContentBlockStart, index, Some(Block(ToolUse, id, name, "", "")), None)] + JsonLines(index, fragments)
    case SentOther(index, deltas) =>
      [Line0(ContentBlockStart, index, Some(Block(OtherBlock, "", "", "", "")), None)] + OtherLines(index, deltas)
  }

  function BlocksLines(blocks: seq<SentBlock>): seq<Line> {
    if blocks == [] then [] else BlockLines(blocks[0]) + BlocksLines(blocks[1..])
  }

  function ClosingLines(stopReason: string): seq<Line> {
    [Line0(MessageDelta, 0, None, Some(BlockDelta(OtherDelta, "", "", stopReason))),
     Line0(MessageStop, 0, None, None)]
  }

  function SentLines(message: SentMessage): seq<Line> {
    [Data(Event(MessageStart, 0, None, None, Some(message.id), None))]
    + (BlocksLines(message.blocks) + ClosingLines(message.stopReason))
  }

  predicate Noise(line: Line) {
    line.NotData? || (line.Data? && line.event.kind == OtherEvent)
  }

  /** Blank lines, event names, pings and block ends carry nothing. */
  function WithoutNoise(lines: seq<Line>): seq<Line> {
    if lines == [] then []
    else (if Noise(lines[0]) then [] else [lines[0]]) + WithoutNoise(lines[1..])
  }

  // ---------------------------------------------------------------- the message assembled

  function Assembled(b: SentBlock): Block {
    match b
    case SentText(_, fragments) => Block(Text, "", "", Concat(fragments), "")
    case SentTool(_, id, name, fragments) => Block(ToolUse, id, name, "", Concat(fragments))
    case SentOther(_, _) => Block(OtherBlock, "", "", "", "")
  }

  function AssembledAll(blocks: seq<SentBlock>): seq<Block> {
    if blocks == [] then [] else [Assembled(blocks[0])] + AssembledAll(blocks[1..])
  }

  /** The tool calls as the fragments spell them, without the whole-message default. */
  function SpelledCalls(blocks: seq<SentBlock>): seq<ToolCall> {
    if blocks == [] then []
    else CallSpelled(blocks[0]) + SpelledCalls(blocks[1..])
  }

  function CallSpelled(b: SentBlock): seq<ToolCall> {
    if b.SentTool? then [ToolCall(None, b.id, "function", b.name, Concat(b.fragments))] else []
  }

  function ByIndex(calls: seq<ToolCall>): map<int, ToolCall> {
    map j | 0 <= j < |calls| :: calls[j]
  }

  function StateAfter(st: StreamState, b: SentBlock): StreamState {
    if b.SentTool? then st.(tools := st.tools[b.index := st.next], next := st.next + 1) else st
  }

  function StateAfterAll(st: StreamState, blocks: seq<SentBlock>): StreamState
    decreases |blocks|
  {
    if blocks == [] then st else StateAfterAll(StateAfter(st, blocks[0]), blocks[1..])
  }

  // ---------------------------------------------------------------- folding along the stream

  /** Reading one line and folding what it emits commute with reading the rest. */
  lemma FoldLine(f: Folded, st: StreamState, line: Line, rest: seq<Line>, broken: bool, model: string)
    requires !OnLine(st, line, model).2
    ensures Fold(f, Streamed(st, [line] + rest, broken, model))
         == Fold(Fold(f, OnLine(st, line, model).1), Streamed(OnLine(st, line, model).0, rest, broken, model))
  {
    assert ([line] + rest)[1..] == rest;
    FoldAppend(f, OnLine(st, line, model).1, Streamed(OnLine(st, line, model).0, rest, broken, model));
  }

  lemma {:induction false} NoiseIsTransparent(st: StreamState, lines: seq<Line>, broken: bool, model: string)
    ensures Streamed(st, WithoutNoise(lines), broken, model) == Streamed(st, lines, broken, model)
    decreases |lines|
  {
    if lines != [] {
      var (st', out, ends) := OnLine(st, lines[0], model);
      var rest := WithoutNoise(lines[1..]);
      NoiseIsTransparent(st', lines[1..], broken, model);
      if Noise(lines[0]) {
        assert WithoutNoise(lines) == rest;
        assert out + Streamed(st, rest, broken, model) == Streamed(st, rest, broken, model);
      } else {
        assert WithoutNoise(lines) == [lines[0]] + rest && ([lines[0]] + rest)[1..] == rest;
      }
    }
  }

  function WithText(f: Folded, more: string): Folded {
    f.(text := f.text + more)
  }

  lemma WithTextTwice(f: Folded, a: string, b: string)
    ensures WithText(WithText(f, a), b) == WithText(f, a + b)
    ensures WithText(f, "") == f
  {
    assert f.text + a + b == f.text + (a + b) && f.text + "" == f.text;
  }

  lemma {:induction false} FoldText(f: Folded, st: StreamState, index: int, fragments: seq<string>, rest: seq<Line>,
                                    broken: bool, model: string)
    ensures Fold(f, Streamed(st, TextLines(index, fragments) + rest, broken, model))
         == Fold(WithText(f, Concat(fragments)), Streamed(st, rest, broken, model))
    decreases |fragments|
  {
    if fragments == [] {
      WithTextTwice(f, "", "");
      assert TextLines(index, fragments) + rest == rest;
    } else {
      var line := TextLines(index, fragments)[0];
      var more := TextLines(index, fragments[1..]) + rest;
      assert TextLines(index, fragments) + rest == [line] + more;
      FoldLine(f, st, line, more, broken, model);
      FoldTextFragment(f, st, line, model);
      FoldText(WithText(f, fragments[0]), st, index, fragments[1..], rest, broken, model);
      WithTextTwice(f, fragments[0], Concat(fragments[1..]));
    }
  }

  lemma FoldTextFragment(f: Folded, st: StreamState, line: Line, model: string)
    requires line.Data? && line.event.kind == ContentBlockDelta && line.event.delta.Some?
    requires line.event.delta.value.kind == OtherDelta
    ensures OnLine(st, line, model).0 == st && !OnLine(st, line, model).2
    ensures Fold(f, OnLine(st, line, model).1) == WithText(f, line.event.delta.value.text)
  {
    FoldOne(f, OnLine(st, line, model).1);
    WithTextTwice(f, "", "");
  }

  lemma FoldOne(f: Folded, events: seq<StreamEvent>)
    ensures |events| == 1 ==> Fold(f, events) == FoldEvent(f, events[0])
    ensures |events| == 0 ==> Fold(f, events) == f
  {
  }

  /** The i-th call of `calls` with more argument text. */
  function Extended(calls: seq<ToolCall>, i: int, more: string): seq<ToolCall>
    requires 0 <= i < |calls|
  {
    calls[i := calls[i].(arguments := calls[i].arguments + more)]
  }

  lemma ExtendedTwice(calls: seq<ToolCall>, i: int, a: string, b: string)
    requires 0 <= i < |calls|
    ensures Extended(Extended(calls, i, a), i, b) == Extended(calls, i, a + b)
  {
    assert calls[i].arguments + a + b == calls[i].arguments + (a + b);
  }

  lemma {:induction false} FoldJson(f: Folded, st: StreamState, calls: seq<ToolCall>, index: int,
                                    fragments: seq<string>, rest: seq<Line>, broken: bool, model: string)
    requires index in st.tools && 0 <= st.tools[index] < |calls| && f.calls == ByIndex(calls)
    ensures Fold(f, Streamed(st, JsonLines(index, fragments) + rest, broken, model))
         == Fold(f.(calls := ByIndex(Extended(calls, st.tools[index], Concat(fragments)))),
                 Streamed(st, rest, broken, model))
    decreases |fragments|
  {
    var i := st.tools[index];
    if fragments == [] {
      assert JsonLines(index, fragments) + rest == rest;
      assert calls[i].arguments + "" == calls[i].arguments;
      assert Extended(calls, i, "") == calls;
    } else {
      var line := JsonLines(index, fragments)[0];
      var more := JsonLines(index, fragments[1..]) + rest;
      assert JsonLines(index, fragments) + rest == [line] + more;
      FoldLine(f, st, line, more, broken, model);
      var longer := Extended(calls, i, fragments[0]);
      FoldJsonFragment(f, st, calls, line, model);
      FoldJson(f.(calls := ByIndex(longer)), st, longer, index, fragments[1..], rest, broken, model);
      ExtendedTwice(calls, i, fragments[0], Concat(fragments[1..]));
    }
  }

  lemma FoldJsonFragment(f: Folded, st: StreamState, calls: seq<ToolCall>, line: Line, model: string)
    requires line.Data? && line.event.kind == ContentBlockDelta && line.event.delta.Some?
    requires line.event.delta.value.kind == InputJsonDelta
    requires line.event.index in st.tools && 0 <= st.tools[line.event.index] < |calls| && f.calls == ByIndex(calls)
    ensures OnLine(st, line, model).0 == st && !OnLine(st, line, model).2
    ensures Fold(f, OnLine(st, line, model).1)
         == f.(calls := ByIndex(Extended(calls, st.tools[line.event.index], line.event.delta.value.partialJson)))
  {
    var i, json := st.tools[line.event.index], line.event.delta.value.partialJson;
    FoldOne(f, OnLine(st, line, model).1);
    if json == "" {
      assert calls[i].arguments + "" == calls[i].arguments;
      assert Extended(calls, i, json) == calls;
    } else {
      assert f.text + "" == f.text;
      assert MergeCalls(f.calls, [FragmentCall(i, json)]) == MergeCall(f.calls, FragmentCall(i, json)) by {
        assert [FragmentCall(i, json)][1..] == [];
      }
      assert MergeCall(f.calls, FragmentCall(i, json)) == ByIndex(Extended(calls, i, json));
    }
  }

  lemma {:induction false} FoldOther(f: Folded, st: StreamState, index: int, deltas: seq<BlockDelta>, rest: seq<Line>,
                                     broken: bool, model: string)
    requires index !in st.tools && forall d :: d in deltas ==> d.kind == InputJsonDelta || d.text == ""
    ensures Fold(f, Streamed(st, OtherLines(index, deltas) + rest, broken, model))
         == Fold(f, Streamed(st, rest, broken, model))
    decreases |deltas|
  {
    if deltas == [] {
      assert OtherLines(index, deltas) + rest == rest;
    } else {
      var line := OtherLines(index, deltas)[0];
      var more := OtherLines(index, deltas[1..]) + rest;
      assert OtherLines(index, deltas) + rest == [line] + more;
      assert deltas[0] in deltas;
      FoldLine(f, st, line, more, broken, model);
      FoldOther(f, st, index, deltas[1..], rest, broken, model);
    }
  }

  lemma FoldOpening(f: Folded, st: StreamState, calls: seq<ToolCall>, index: int, block: Block, model: string)
    requires f.calls == ByIndex(calls) && st.next == |calls| && block.kind == ToolUse
    ensures var (st', out, ends) := OnLine(st, Line0(ContentBlockStart, index, Some(block), None), model);
            !ends && st' == st.(tools := st.tools[index := st.next], next := st.next + 1)
            && Fold(f, out) == f.(calls := ByIndex(calls + [ToolCall(None, block.id, "function", block.name, "")]))
  {
    var opening := OpeningCall(st.next, block);
    FoldOne(f, OnLine(st, Line0(ContentBlockStart, index, Some(block), None), model).1);
    assert f.text + "" == f.text;
    assert MergeCalls(f.calls, [opening]) == MergeCall(f.calls, opening) by {
      assert [opening][1..] == [];
    }
    assert MergeCall(f.calls, opening) == ByIndex(calls + [opening.(index := None)]);
  }

  /** One whole text block appends its text. */
  lemma FoldTextBlock(f: Folded, st: StreamState, b: SentBlock, rest: seq<Line>, broken: bool, model: string)
    requires b.SentText?
    ensures Fold(f, Streamed(st, BlockLines(b) + rest, broken, model))
         == Fold(WithText(f, Concat(b.fragments)), Streamed(st, rest, broken, model))
  {
    var more := TextLines(b.index, b.fragments) + rest;
    assert BlockLines(b) + rest == [BlockLines(b)[0]] + more;
    FoldLine(f, st, BlockLines(b)[0], more, broken, model);
    FoldOne(f, OnLine(st, BlockLines(b)[0], model).1);
    FoldText(f, st, b.index, b.fragments, rest, broken, model);
  }

  lemma FoldToolBlock(f: Folded, st: StreamState, calls: seq<ToolCall>, b: SentBlock, rest: seq<Line>,
                      broken: bool, model: string)
    requires b.SentTool? && f.calls == ByIndex(calls) && st.next == |calls| && b.index !in st.tools
    ensures Fold(f, Streamed(st, BlockLines(b) + rest, broken, model))
         == Fold(f.(calls := ByIndex(calls + CallSpelled(b))), Streamed(StateAfter(st, b), rest, broken, model))
  {
    var more := JsonLines(b.index, b.fragments) + rest;
    assert BlockLines(b) + rest == [BlockLines(b)[0]] + more;
    FoldLine(f, st, BlockLines(b)[0], more, broken, model);
    FoldOpening(f, st, calls, b.index, Block(ToolUse, b.id, b.name, "", ""), model);
    var begun := calls + [ToolCall(None, b.id, "function", b.name, "")];
    FoldJson(f.(calls := ByIndex(begun)), StateAfter(st, b), begun, b.index, b.fragments, rest, broken, model);
    CallComplete(calls, b);
  }

  lemma CallComplete(calls: seq<ToolCall>, b: SentBlock)
    requires b.SentTool?
    ensures Extended(calls + [ToolCall(None, b.id, "function", b.name, "")], |calls|, Concat(b.fragments))
         == calls + CallSpelled(b)
  {
    assert "" + Concat(b.fragments) == Concat(b.fragments);
  }

  lemma FoldOtherBlock(f: Folded, st: StreamState, b: SentBlock, rest: seq<Line>, broken: bool, model: string)
    requires b.SentOther? && b.index !in st.tools
    requires forall d :: d in b.deltas ==> d.kind == InputJsonDelta || d.text == ""
    ensures Fold(f, Streamed(st, BlockLines(b) + rest, broken, model)) == Fold(f, Streamed(st, rest, broken, model))
  {
    var more := OtherLines(b.index, b.deltas) + rest;
    assert BlockLines(b) + rest == [BlockLines(b)[0]] + more;
    FoldLine(f, st, BlockLines(b)[0], more, broken, model);
    FoldOne(f, OnLine(st, BlockLines(b)[0], model).1);
    FoldOther(f, st, b.index, b.deltas, rest, broken, model);
  }

  function TextSent(b: SentBlock): string {
    if b.SentText? then Concat(b.fragments) else ""
  }

  /** What the client holds after one whole block: more text, or the next tool call. */
  function FoldedBlock(f: Folded, calls: seq<ToolCall>, b: SentBlock): Folded {
    WithText(f, TextSent(b)).(calls := ByIndex(calls + CallSpelled(b)))
  }

  lemma FoldBlock(f: Folded, st: StreamState, calls: seq<ToolCall>, b: SentBlock, rest: seq<Line>,
                  broken: bool, model: string)
    requires f.calls == ByIndex(calls) && st.next == |calls| && b.index !in st.tools
    requires b.SentOther? ==> forall d :: d in b.deltas ==> d.kind == InputJsonDelta || d.text == ""
    ensures Fold(f, Streamed(st, BlockLines(b) + rest, broken, model))
         == Fold(FoldedBlock(f, calls, b), Streamed(StateAfter(st, b), rest, broken, model))
  {
    WithTextTwice(f, "", "");
    assert calls + [] == calls;
    match b
    case SentText(_, _) => FoldTextBlock(f, st, b, rest, broken, model);
    case SentTool(_, _, _, _) => FoldToolBlock(f, st, calls, b, rest, broken, model);
    case SentOther(_, _) => FoldOtherBlock(f, st, b, rest, broken, model);
  }

  lemma {:induction false} FoldBlocks(f: Folded, st: StreamState, calls: seq<ToolCall>, blocks: seq<SentBlock>,
                                      rest: seq<Line>, broken: bool, model: string)
    requires f.calls == ByIndex(calls) && st.next == |calls| && WellFormed(blocks)
    requires forall i :: 0 <= i < |blocks| ==> blocks[i].index !in st.tools
    ensures Fold(f, Streamed(st, BlocksLines(blocks) + rest, broken, model))
         == Fold(WithText(f, TextOf(AssembledAll(blocks))).(calls := ByIndex(calls + SpelledCalls(blocks))),
                 Streamed(StateAfterAll(st, blocks), rest, broken, model))
    decreases |blocks|
  {
    if blocks == [] {
      assert BlocksLines(blocks) + rest == rest && f.text + "" == f.text && calls + [] == calls;
    } else {
      var b := blocks[0];
      var more := BlocksLines(blocks[1..]) + rest;
      assert BlocksLines(blocks) + rest == BlockLines(b) + more;
      FoldBlock(f, st, calls, b, more, broken, model);
      var g := FoldedBlock(f, calls, b);
      FoldBlocks(g, StateAfter(st, b), calls + CallSpelled(b), blocks[1..], rest, broken, model);
      SplitFirstText(f, blocks);
      SplitFirstCalls(calls, blocks);
    }
  }

  lemma SplitFirstText(f: Folded, blocks: seq<SentBlock>)
    requires blocks != []
    ensures WithText(WithText(f, TextSent(blocks[0])), TextOf(AssembledAll(blocks[1..])))
         == WithText(f, TextOf(AssembledAll(blocks)))
  {
    WithTextTwice(f, TextSent(blocks[0]), TextOf(AssembledAll(blocks[1..])));
    assert AssembledAll(blocks)[1..] == AssembledAll(blocks[1..]);
  }

  lemma SplitFirstCalls(calls: seq<ToolCall>, blocks: seq<SentBlock>)
    requires blocks != []
    ensures calls + CallSpelled(blocks[0]) + SpelledCalls(blocks[1..]) == calls + SpelledCalls(blocks)
  {
    Regroup(calls, CallSpelled(blocks[0]), SpelledCalls(blocks[1..]));
  }

  // ---------------------------------------------------------------- agreement

  /** What the client holds after the whole stream of a message, noise included. */
  lemma StreamedMessage(message: SentMessage, lines: seq<Line>, broken: bool, model: string)
    requires WellFormed(message.blocks) && WithoutNoise(lines) == SentLines(message)
    ensures Fold(NOTHING_YET, Streamed(FRESH, lines, broken, model))
         == Folded(TextOf(AssembledAll(message.blocks)),
                   ByIndex(SpelledCalls(message.blocks)),
                   if message.stopReason == "" then None else Some(TranslateStopReason(message.stopReason)),
                   Some(Done))
  {
    NoiseIsTransparent(FRESH, lines, broken, model);
    var st := FRESH.(messageId := message.id);
    var rest := ClosingLines(message.stopReason);
    var more := BlocksLines(message.blocks) + rest;
    FoldLine(NOTHING_YET, FRESH, SentLines(message)[0], more, broken, model);
    assert ByIndex([]) == map[];
    FoldBlocks(NOTHING_YET, st, [], message.blocks, rest, broken, model);
    var f := NOTHING_YET.(text := TextOf(AssembledAll(message.blocks)), calls := ByIndex(SpelledCalls(message.blocks)));
    assert "" + TextOf(AssembledAll(message.blocks)) == TextOf(AssembledAll(message.blocks));
    assert [] + SpelledCalls(message.blocks) == SpelledCalls(message.blocks);
    FoldClosing(f, StateAfterAll(st, message.blocks), message.stopReason, broken, model);
  }

  lemma FoldClosing(f: Folded, st: StreamState, stopReason: string, broken: bool, model: string)
    requires f.finishReason == None
    ensures Fold(f, Streamed(st, ClosingLines(stopReason), broken, model))
         == f.(finishReason := if stopReason == "" then None else Some(TranslateStopReason(stopReason)),
               ended := Some(Done))
  {
    var lines := ClosingLines(stopReason);
    assert lines == [lines[0]] + [lines[1]];
    FoldLine(f, st, lines[0], [lines[1]], broken, model);
    FoldOne(f, OnLine(st, lines[0], model).1);
    assert f.text + "" == f.text;
    assert Streamed(st, [lines[1]], broken, model) == [Done];
  }

  /** What the whole-message translation makes of a call the fragments spelled. */
  function Defaulted(call: ToolCall): ToolCall {
    call.(arguments := if call.arguments == "" then "{}" else call.arguments)
  }

  lemma {:induction false} CallsAgree(blocks: seq<SentBlock>)
    ensures |CallsOf(AssembledAll(blocks))| == |SpelledCalls(blocks)|
    ensures forall j :: 0 <= j < |SpelledCalls(blocks)| ==>
              CallsOf(AssembledAll(blocks))[j] == Defaulted(SpelledCalls(blocks)[j])
  {
    if blocks != [] {
      CallsAgree(blocks[1..]);
      assert AssembledAll(blocks) == [Assembled(blocks[0])] + AssembledAll(blocks[1..]);
      assert ([Assembled(blocks[0])] + AssembledAll(blocks[1..]))[1..] == AssembledAll(blocks[1..]);
    }
  }

  /** Every tool block delivered some argument text. */
  ghost predicate ArgumentsSent(blocks: seq<SentBlock>) {
    forall i :: 0 <= i < |blocks| && blocks[i].SentTool? ==> Concat(blocks[i].fragments) != ""
  }

  ghost predicate AllSpelled(calls: seq<ToolCall>) {
    forall j :: 0 <= j < |calls| ==> calls[j].arguments != ""
  }

  lemma AllSpelledCons(head: seq<ToolCall>, tail: seq<ToolCall>)
    ensures AllSpelled(head + tail) <==> AllSpelled(head) && AllSpelled(tail)
  {
    assert forall j :: 0 <= j < |tail| ==> (head + tail)[|head| + j] == tail[j];
    assert forall j :: 0 <= j < |head| ==> (head + tail)[j] == head[j];
  }

  lemma {:induction false} SpelledArguments(blocks: seq<SentBlock>)
    ensures ArgumentsSent(blocks) <==> AllSpelled(SpelledCalls(blocks))
  {
    if blocks != [] {
      var b := blocks[0];
      SpelledArguments(blocks[1..]);
      AllSpelledCons(CallSpelled(b), SpelledCalls(blocks[1..]));
      assert b.SentTool? ==> CallSpelled(b)[0].arguments == Concat(b.fragments);
      assert forall i :: 1 <= i < |blocks| ==> blocks[i] == blocks[1..][i - 1];
      assert forall i :: 0 <= i < |blocks[1..]| ==> blocks[1..][i] == blocks[i + 1];
    }
  }

  /** For every well-formed message, however fragmented and whatever noise surrounds it, the folded
      stream ends properly and has the text and the tool calls 0..k-1 of the whole-message
      translation, in order; calls and finish reason are the same exactly when the upstream sent a
      stop reason and some argument text for every tool. */
  lemma StreamAgreesWithMessage(message: SentMessage, lines: seq<Line>, broken: bool, model: string)
    requires WellFormed(message.blocks) && WithoutNoise(lines) == SentLines(message)
    ensures var f := Fold(NOTHING_YET, Streamed(FRESH, lines, broken, model));
            var calls := CallsOf(AssembledAll(message.blocks));
            && f.ended == Some(Done)
            && f.text == TextOf(AssembledAll(message.blocks))
            && (forall j :: j in f.calls <==> 0 <= j < |calls|)
            && (forall j :: 0 <= j < |calls| ==> f.calls[j].(arguments := calls[j].arguments) == calls[j])
            && (f.calls == ByIndex(calls) && f.finishReason == Some(TranslateStopReason(message.stopReason))
                <==> ArgumentsSent(message.blocks) && message.stopReason != "")
  {
    StreamedMessage(message, lines, broken, model);
    CallsAgree(message.blocks);
    SpelledArguments(message.blocks);
    SameCalls(SpelledCalls(message.blocks), CallsOf(AssembledAll(message.blocks)));
  }

  /** Every chunk of a message's stream carries its id and the requested model. */
  lemma MessageIsLabelled(message: SentMessage, lines: seq<Line>, broken: bool, model: string)
    requires WithoutNoise(lines) == SentLines(message)
    ensures forall e :: e in Streamed(FRESH, lines, broken, model) && e.ChunkEvent? ==>
              e.chunk.id == message.id && e.chunk.model == model
  {
    NoiseIsTransparent(FRESH, lines, broken, model);
    var st, sent := FRESH.(messageId := message.id), SentLines(message);
    NoStartAfterFirst(message);
    ChunksAreLabelled(st, sent[1..], broken, model);
    assert [] + Streamed(st, sent[1..], broken, model) == Streamed(st, sent[1..], broken, model);
  }

  lemma NoStartAfterFirst(message: SentMessage)
    ensures var rest := SentLines(message)[1..]; forall j :: 0 <= j < |rest| ==> !Starts(rest[j])
  {
    var blocks, closing := BlocksLines(message.blocks), ClosingLines(message.stopReason);
    var rest := SentLines(message)[1..];
    NoOtherStart(message.blocks);
    assert rest == blocks + closing;
    forall j | 0 <= j < |rest| ensures !Starts(rest[j]) {
      if j < |blocks| {
        assert rest[j] == blocks[j] && blocks[j] in blocks;
      } else {
        assert rest[j] == closing[j - |blocks|];
      }
    }
  }

  predicate Starts(line: Line) {
    line.Data? && line.event.kind == MessageStart
  }

  lemma {:induction false} NoOtherStart(blocks: seq<SentBlock>)
    ensures forall line :: line in BlocksLines(blocks) ==> !Starts(line)
  {
    if blocks != [] {
      NoOtherStart(blocks[1..]);
      match blocks[0]
      case SentText(index, fragments) => NoStartInText(index, fragments);
      case SentTool(index, _, _, fragments) => NoStartInJson(index, fragments);
      case SentOther(index, deltas) => NoStartInOther(index, deltas);
    }
  }

  lemma {:induction false} NoStartInText(index: int, fragments: seq<string>)
    ensures forall line :: line in TextLines(index, fragments) ==> !Starts(line)
  {
    if fragments != [] {
      NoStartInText(index, fragments[1..]);
    }
  }

  lemma {:induction false} NoStartInJson(index: int, fragments: seq<string>)
    ensures forall line :: line in JsonLines(index, fragments) ==> !Starts(line)
  {
    if fragments != [] {
      NoStartInJson(index, fragments[1..]);
    }
  }

  lemma {:induction false} NoStartInOther(index: int, deltas: seq<BlockDelta>)
    ensures forall line :: line in OtherLines(index, deltas) ==> !Starts(line)
  {
    if deltas != [] {
      NoStartInOther(index, deltas[1..]);
    }
  }

  /** Agreement without the condition is false: a tool called with no argument text at all is streamed
      with empty arguments, and translated whole with an empty object. */
  lemma SilentToolDiffers(model: string)
    ensures var message := SentMessage("m", [SentTool(0, "t", "f", [])], "tool_use");
            var f := Fold(NOTHING_YET, Streamed(FRESH, SentLines(message), false, model));
            && WellFormed(message.blocks)
            && 0 in f.calls && f.calls[0].arguments == ""
            && CallsOf(AssembledAll(message.blocks)) == [ToolCall(None, "t", "function", "f", "{}")]
  {
    var message := SentMessage("m", [SentTool(0, "t", "f", [])], "tool_use");
    assert WithoutNoise(SentLines(message)) == SentLines(message) by {
      NothingButSignal(SentLines(message));
    }
    StreamedMessage(message, SentLines(message), false, model);
    assert message.blocks[1..] == [];
  }

  lemma {:induction false} NothingButSignal(lines: seq<Line>)
    requires forall i :: 0 <= i < |lines| ==> !Noise(lines[i])
    ensures WithoutNoise(lines) == lines
  {
    if lines != [] {
      NothingButSignal(lines[1..]);
    }
  }

  lemma SameCalls(spelled: seq<ToolCall>, calls: seq<ToolCall>)
    requires |calls| == |spelled| && forall j :: 0 <= j < |spelled| ==> calls[j] == Defaulted(spelled[j])
    ensures ByIndex(spelled) == ByIndex(calls) <==> AllSpelled(spelled)
  {
    if AllSpelled(spelled) {
      assert forall j :: 0 <= j < |spelled| ==> spelled[j] == calls[j];
    } else {
      var j :| 0 <= j < |spelled| && spelled[j].arguments == "";
      assert ByIndex(spelled)[j] != ByIndex(calls)[j];
    }
  }
}
