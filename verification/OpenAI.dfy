/** The OpenAI-shaped stream the gateway speaks to its clients. */
module OpenAI {
  import opened Basics

  /** `index` is set only in streaming deltas. */
  datatype ToolCall = ToolCall(index: Option<int>, id: string, kind: string, name: string, arguments: string)

  datatype Delta = Delta(content: string, toolCalls: seq<ToolCall>)

  datatype StreamChunk = StreamChunk(id: string, model: string, delta: Delta, finishReason: Option<string>)

  datatype StreamEvent = ChunkEvent(chunk: StreamChunk) | Done | Failed(message: string) | Nothing

  /** What a client has assembled from a stream so far; tool calls are kept by their index. */
  datatype Folded = Folded(
    text: string,
    calls: map<int, ToolCall>,
    finishReason: Option<string>,
    ended: Option<StreamEvent>)

  const NOTHING_YET := Folded("", map[], None, None)

  function MergeCall(calls: map<int, ToolCall>, call: ToolCall): map<int, ToolCall> {
    if call.index.None? then calls
    else
      var i := call.index.value;
      if i in calls then
        var held := calls[i];
        calls[i := held.(id := if call.id == "" then held.id else call.id,
                         kind := if call.kind == "" then held.kind else call.kind,
                         name := if call.name == "" then held.name else call.name,
                         arguments := held.arguments + call.arguments)]
      else calls[i := call.(index := None)]
  }

  function MergeCalls(calls: map<int, ToolCall>, more: seq<ToolCall>): map<int, ToolCall>
    decreases |more|
  {
    if more == [] then calls else MergeCalls(MergeCall(calls, more[0]), more[1..])
  }

  function FoldEvent(f: Folded, event: StreamEvent): Folded {
    match event
    case ChunkEvent(chunk) =>
      f.(text := f.text + chunk.delta.content,
         calls := MergeCalls(f.calls, chunk.delta.toolCalls),
         finishReason := if chunk.finishReason.Some? then chunk.finishReason else f.finishReason)
    case Done => f.(ended := Some(event))
    case Failed(_) => f.(ended := Some(event))
    case Nothing => f
  }

  /** A client reading a stream to its end. */
  function Fold(f: Folded, events: seq<StreamEvent>): Folded
    decreases |events|
  {
    if events == [] then f else Fold(FoldEvent(f, events[0]), events[1..])
  }

  lemma {:induction false} FoldAppend(f: Folded, a: seq<StreamEvent>, b: seq<StreamEvent>)
    ensures Fold(f, a + b) == Fold(Fold(f, a), b)
    decreases |a|
  {
    if a == [] {
      assert a + b == b;
    } else {
      assert (a + b)[1..] == a[1..] + b;
      FoldAppend(FoldEvent(f, a[0]), a[1..], b);
    }
  }
}
