/**
 Translating the turns of an OpenAI request: consecutive tool results are grouped into
 one user message, the system message moves to its own field, and nothing is lost.
 */
module AnthropicRequest {
  import opened Basics
  import HeaderSplit

  datatype Role = System | Tool | Assistant | User

  /** A message content as JSON delivers it; a part without a text field is None. */
  datatype Content = Str(text: string) | Parts(parts: seq<Option<string>>) | OtherContent

  datatype Call = Call(id: string, name: string, arguments: string)

  datatype InMessage = InMessage(role: Role, content: Content, toolCalls: seq<Call>, toolCallId: string)

  datatype OutBlock =
    | TextBlock(text: string)
    | ToolUse(id: string, name: string, input: string)
    | ToolResult(toolUseId: string, text: string)

  datatype OutContent = Plain(text: string) | Blocks(blocks: seq<OutBlock>)

  datatype OutMessage = OutMessage(fromUser: bool, content: OutContent)

  function JoinTexts(parts: seq<Option<string>>): Option<string> {
    if parts == [] then None
    else
      var rest := JoinTexts(parts[1..]);
      if parts[0].None? then rest
      else if rest.None? then parts[0]
      else Some(parts[0].value + "\n" + rest.value)
  }

  function ExtractContent(content: Content): string {
    match content
    case Str(text) => text
    case Parts(parts) => if JoinTexts(parts).Some? then JoinTexts(parts).value else ""
    case OtherContent => ""
  }

  /** The texts of the parts that have one. */
  function Texts(parts: seq<Option<string>>): seq<string> {
    if parts == [] then [] else (if parts[0].Some? then [parts[0].value] else []) + Texts(parts[1..])
  }

  lemma {:induction false} JoinTextsIsJoin(parts: seq<Option<string>>)
    ensures JoinTexts(parts)
         == if Texts(parts) == [] then None else Some(HeaderSplit.Join(Texts(parts), '\n'))
  {
    if parts != [] {
      JoinTextsIsJoin(parts[1..]);
      if parts[0].Some? {
        var rest := Texts(parts[1..]);
        assert Texts(parts)[1..] == rest;
        if rest != [] {
          assert parts[0].value + ['\n'] + HeaderSplit.Join(rest, '\n')
              == parts[0].value + "\n" + HeaderSplit.Join(rest, '\n');
        }
      } else {
        assert [] + Texts(parts[1..]) == Texts(parts[1..]);
      }
    }
  }

  /** A string is its own text, a list is the texts of its parts joined by line breaks, and anything
      else has no text. */
  lemma ExtractedText(content: Content)
    ensures content.Str? ==> ExtractContent(content) == content.text
    ensures content.Parts? ==>
              ExtractContent(content)
              == if Texts(content.parts) == [] then "" else HeaderSplit.Join(Texts(content.parts), '\n')
    ensures content.OtherContent? ==> ExtractContent(content) == ""
  {
    if content.Parts? {
      JoinTextsIsJoin(content.parts);
    }
  }

  function UseBlocks(calls: seq<Call>): seq<OutBlock> {
    seq(|calls|, i requires 0 <= i < |calls| =>
      ToolUse(calls[i].id, calls[i].name, if calls[i].arguments == "" then "{}" else calls[i].arguments))
  }

  method ConvertAssistantMessage(message: InMessage) returns (out: OutMessage)
    ensures !out.fromUser
    ensures SpokenText(out) == ExtractContent(message.content)
    ensures UsedTools(out) == UseBlocks(message.toolCalls)
    ensures |UsedTools(out)| == |message.toolCalls|
    ensures forall i :: 0 <= i < |message.toolCalls| ==>
              var call := message.toolCalls[i];
              UsedTools(out)[i]
              == ToolUse(call.id, call.name, if |call.arguments| > 0 then call.arguments else "{}")
    ensures out.content.Plain? <==> message.toolCalls == []
    ensures out == AssistantTurn(message)
  {
    if |message.toolCalls| == 0 {
      return OutMessage(false, Plain(ExtractContent(message.content)));
    }
    var blocks: seq<OutBlock> := [];
    var text := ExtractContent(message.content);
    if text != "" {
      blocks := [TextBlock(text)];
    }
    ghost var lead := blocks;
    for i := 0 to |message.toolCalls|
      invariant blocks == lead + UseBlocks(message.toolCalls[..i])
    {
      var call := message.toolCalls[i];
      var input := call.arguments;
      if |input| == 0 {
        input := "{}";
      }
      blocks := blocks + [ToolUse(call.id, call.name, input)];
      assert UseBlocks(message.toolCalls[..i + 1])
          == UseBlocks(message.toolCalls[..i]) + [ToolUse(call.id, call.name, input)];
    }
    assert message.toolCalls[..|message.toolCalls|] == message.toolCalls;
    assert blocks[|lead|..] == UseBlocks(message.toolCalls);
    assert lead == [] ==> UseBlocks(message.toolCalls)[0].ToolUse?;
    out := OutMessage(false, Blocks(blocks));
  }

  /** The text an assistant message speaks. */
  function SpokenText(m: OutMessage): string {
    match m.content
    case Plain(text) => text
    case Blocks(blocks) => if blocks != [] && blocks[0].TextBlock? then blocks[0].text else ""
  }

  /** The tool calls an assistant message makes. */
  function UsedTools(m: OutMessage): seq<OutBlock> {
    match m.content
    case Plain(_) => []
    case Blocks(blocks) => if blocks != [] && blocks[0].TextBlock? then blocks[1..] else blocks
  }

  ghost function AssistantTurn(message: InMessage): OutMessage {
    var text := ExtractContent(message.content);
    if message.toolCalls == [] then OutMessage(false, Plain(text))
    else OutMessage(false, Blocks((if text == "" then [] else [TextBlock(text)]) + UseBlocks(message.toolCalls)))
  }

  // ---------------------------------------------------------------- turns

  datatype Turn = Result(block: OutBlock) | Whole(message: OutMessage)

  /** What one input message becomes on its own; a system message is no turn. */
  ghost function TurnOf(message: InMessage): seq<Turn> {
    match message.role
    case System => []
    case Tool => [Result(ToolResult(message.toolCallId, ExtractContent(message.content)))]
    case Assistant => [Whole(AssistantTurn(message))]
    case User => [Whole(OutMessage(true, Plain(ExtractContent(message.content))))]
  }

  ghost function Turns(messages: seq<InMessage>): seq<Turn> {
    if messages == [] then [] else Turns(messages[..|messages| - 1]) + TurnOf(messages[|messages| - 1])
  }

  ghost function LastSystem(messages: seq<InMessage>): string {
    if messages == [] then ""
    else
      var last := messages[|messages| - 1];
      if last.role == System then ExtractContent(last.content) else LastSystem(messages[..|messages| - 1])
  }

  /** Every message makes the turn its role calls for, with its own text and call id, and a system
      message none; turns follow the order of the messages. */
  lemma TurnsByRole(before: seq<InMessage>, message: InMessage)
    ensures var text, added := ExtractContent(message.content), TurnOf(message);
            && Turns(before + [message]) == Turns(before) + added
            && match message.role
               case System => added == []
               case Tool => added == [Result(ToolResult(message.toolCallId, text))]
               case User => added == [Whole(OutMessage(true, Plain(text)))]
               case Assistant => message.toolCalls == [] ==> added == [Whole(OutMessage(false, Plain(text)))]
  {
    assert (before + [message])[..|before|] == before;
  }

  /** The system field is the text of the last system message, or nothing. */
  lemma {:induction false} SystemIsLast(messages: seq<InMessage>, k: int)
    requires forall j :: 0 <= j < |messages| && k < j ==> messages[j].role != System
    ensures k < 0 ==> LastSystem(messages) == ""
    ensures 0 <= k < |messages| && messages[k].role == System ==>
              LastSystem(messages) == ExtractContent(messages[k].content)
    decreases |messages|
  {
    if messages != [] && messages[|messages| - 1].role != System {
      SystemIsLast(messages[..|messages| - 1], k);
    }
  }

  predicate IsGroup(m: OutMessage) {
    m.fromUser && m.content.Blocks?
  }

  ghost function Results(blocks: seq<OutBlock>): seq<Turn> {
    seq(|blocks|, i requires 0 <= i < |blocks| => Result(blocks[i]))
  }

  /** Taking the groups of an output apart again. */
  ghost function Ungrouped(out: seq<OutMessage>): seq<Turn> {
    if out == [] then []
    else Ungrouped(out[..|out| - 1])
         + if IsGroup(out[|out| - 1]) then Results(out[|out| - 1].content.blocks) else [Whole(out[|out| - 1])]
  }

  ghost predicate WellGrouped(out: seq<OutMessage>) {
    && (forall i :: 0 <= i < |out| && IsGroup(out[i]) ==> out[i].content.blocks != [])
    && (forall i :: 0 <= i < |out| - 1 && IsGroup(out[i]) ==> !IsGroup(out[i + 1]))
  }

  /** Un-grouping the output gives exactly the converted turns in order; no group is empty and no two
      are adjacent; the system field is the last system message. */
  method TranslateMessages(messages: seq<InMessage>) returns (out: seq<OutMessage>, system: string)
    ensures Ungrouped(out) == Turns(messages)
    ensures WellGrouped(out)
    ensures system == LastSystem(messages)
  {
    out, system := [], "";
    var pending: seq<OutBlock> := [];
    for i := 0 to |messages|
      invariant Accumulated(out, pending, messages[..i])
      invariant system == LastSystem(messages[..i])
    {
      var message := messages[i];
      assert messages[..i + 1][..i] == messages[..i] && messages[..i + 1][i] == message;
      match message.role {
        case System =>
          system := ExtractContent(message.content);
          assert Turns(messages[..i]) + [] == Turns(messages[..i]);
        case Tool =>
          var block := ToolResult(message.toolCallId, ExtractContent(message.content));
          AccumulateResult(out, pending, messages[..i + 1], block);
          pending := pending + [block];
        case Assistant =>
          var flushed := Flush(out, pending, messages[..i]);
          var turn := ConvertAssistantMessage(message);
          AccumulateWhole(flushed, messages[..i + 1], turn);
          out, pending := flushed + [turn], [];
        case User =>
          var flushed := Flush(out, pending, messages[..i]);
          var turn := OutMessage(true, Plain(ExtractContent(message.content)));
          AccumulateWhole(flushed, messages[..i + 1], turn);
          out, pending := flushed + [turn], [];
      }
    }
    assert messages[..|messages|] == messages;
    out := Flush(out, pending, messages);
  }

  /** `out` and the open group `pending` together hold the turns of `messages`. */
  ghost predicate Accumulated(out: seq<OutMessage>, pending: seq<OutBlock>, messages: seq<InMessage>) {
    && Ungrouped(out) + Results(pending) == Turns(messages)
    && WellGrouped(out) && (out != [] ==> !IsGroup(out[|out| - 1]))
  }

  lemma AccumulateResult(out: seq<OutMessage>, pending: seq<OutBlock>, messages: seq<InMessage>, block: OutBlock)
    requires messages != [] && Accumulated(out, pending, messages[..|messages| - 1])
    requires TurnOf(messages[|messages| - 1]) == [Result(block)]
    ensures Accumulated(out, pending + [block], messages)
  {
    assert Results(pending + [block]) == Results(pending) + [Result(block)];
  }

  lemma AccumulateWhole(out: seq<OutMessage>, messages: seq<InMessage>, turn: OutMessage)
    requires messages != [] && WellGrouped(out) && Ungrouped(out) == Turns(messages[..|messages| - 1])
    requires TurnOf(messages[|messages| - 1]) == [Whole(turn)] && !IsGroup(turn)
    ensures Accumulated(out + [turn], [], messages)
  {
    assert (out + [turn])[..|out|] == out && Results([]) == [];
    assert Ungrouped(out + [turn]) + [] == Ungrouped(out + [turn]);
  }

  /** Closes the open group, if there is one. */
  method Flush(out: seq<OutMessage>, pending: seq<OutBlock>, ghost messages: seq<InMessage>)
    returns (flushed: seq<OutMessage>)
    requires Accumulated(out, pending, messages)
    ensures WellGrouped(flushed) && Ungrouped(flushed) == Turns(messages)
  {
    flushed := out;
    if |pending| > 0 {
      flushed := out + [OutMessage(true, Blocks(pending))];
      assert flushed[..|out|] == out;
    }
  }

  // ---------------------------------------------------------------- the grouping is the only one

  /** How many results end `turns`. */
  ghost function TrailingResults(turns: seq<Turn>): nat {
    if turns != [] && turns[|turns| - 1].Result? then 1 + TrailingResults(turns[..|turns| - 1]) else 0
  }

  lemma {:induction false} TrailingOfGroup(head: seq<Turn>, blocks: seq<OutBlock>)
    ensures TrailingResults(head + Results(blocks)) == TrailingResults(head) + |blocks|
    decreases |blocks|
  {
    if blocks == [] {
      assert head + Results(blocks) == head;
    } else {
      var turns := head + Results(blocks);
      assert turns[..|turns| - 1] == head + Results(blocks[..|blocks| - 1]);
      TrailingOfGroup(head, blocks[..|blocks| - 1]);
    }
  }

  /** A well-grouped output ends with a group exactly as long as the run of results it came from. */
  lemma LastGroupIsWholeRun(out: seq<OutMessage>)
    requires WellGrouped(out) && out != []
    ensures TrailingResults(Ungrouped(out))
         == if IsGroup(out[|out| - 1]) then |out[|out| - 1].content.blocks| else 0
  {
    var init, last := out[..|out| - 1], out[|out| - 1];
    if IsGroup(last) {
      TrailingOfGroup(Ungrouped(init), last.content.blocks);
      if init != [] {
        assert !IsGroup(init[|init| - 1]);
      }
    }
  }

  lemma SameSuffix<T>(a: seq<T>, b: seq<T>, x: seq<T>, y: seq<T>)
    requires a + x == b + y && |x| == |y|
    ensures a == b && x == y
  {
    assert a == (a + x)[..|a|] && b == (b + y)[..|b|];
    assert x == (a + x)[|a|..] && y == (b + y)[|b|..];
  }

  lemma LastsAgree(a: seq<OutMessage>, b: seq<OutMessage>)
    requires WellGrouped(a) && WellGrouped(b) && Ungrouped(a) == Ungrouped(b) && a != [] && b != []
    ensures a[|a| - 1] == b[|b| - 1] && Ungrouped(a[..|a| - 1]) == Ungrouped(b[..|b| - 1])
  {
    var k, l := |a| - 1, |b| - 1;
    LastGroupIsWholeRun(a);
    LastGroupIsWholeRun(b);
    if IsGroup(a[k]) {
      SameSuffix(Ungrouped(a[..k]), Ungrouped(b[..l]), Results(a[k].content.blocks), Results(b[l].content.blocks));
      SameResults(a[k].content.blocks, b[l].content.blocks);
    } else {
      SameSuffix(Ungrouped(a[..k]), Ungrouped(b[..l]), [Whole(a[k])], [Whole(b[l])]);
      assert [Whole(a[k])][0] == [Whole(b[l])][0];
    }
  }

  /** The contract of `TranslateMessages` leaves no choice: only one well-grouped output has the
      given turns. */
  lemma {:induction false} GroupingIsUnique(a: seq<OutMessage>, b: seq<OutMessage>)
    requires WellGrouped(a) && WellGrouped(b) && Ungrouped(a) == Ungrouped(b)
    ensures a == b
    decreases |a|
  {
    if a == [] || b == [] {
      UngroupedNonEmpty(a);
      UngroupedNonEmpty(b);
    } else {
      LastsAgree(a, b);
      GroupingIsUnique(a[..|a| - 1], b[..|b| - 1]);
      assert a == a[..|a| - 1] + [a[|a| - 1]] && b == b[..|b| - 1] + [b[|b| - 1]];
    }
  }

  lemma SameResults(a: seq<OutBlock>, b: seq<OutBlock>)
    requires Results(a) == Results(b)
    ensures a == b
  {
    assert |Results(a)| == |a| && |Results(b)| == |b|;
    forall i | 0 <= i < |a| ensures a[i] == b[i] {
      assert Results(a)[i] == Result(a[i]) && Results(b)[i] == Result(b[i]);
    }
  }

  lemma UngroupedNonEmpty(out: seq<OutMessage>)
    requires WellGrouped(out)
    ensures Ungrouped(out) == [] <==> out == []
  {
    if out != [] && IsGroup(out[|out| - 1]) {
      assert |Results(out[|out| - 1].content.blocks)| > 0;
    }
  }
}
