/** The part of a chat request that routing looks at. */
module Requests {

  datatype Message = Message(role: string, content: string)

  /** `strings.ToLower(role) == "user"`: no character outside ASCII lowers to one of these letters. */
  predicate IsUser(m: Message) {
    |m.role| == 4 && m.role[0] in "uU" && m.role[1] in "sS" && m.role[2] in "eE" && m.role[3] in "rR"
  }

  /** "user" in any case, and no other role. */
  lemma UserRoles(content: string)
    ensures IsUser(Message("user", content)) && IsUser(Message("User", content)) && IsUser(Message("USER", content))
    ensures !IsUser(Message("system", content)) && !IsUser(Message("assistant", content))
    ensures !IsUser(Message("tool", content)) && !IsUser(Message("", content))
  {
  }

  /** The content of the last user message, or nothing. */
  function LastUser(messages: seq<Message>): string {
    if messages == [] then ""
    else if IsUser(messages[|messages| - 1]) then messages[|messages| - 1].content
    else LastUser(messages[..|messages| - 1])
  }

  predicate NoUserAfter(messages: seq<Message>, i: int) {
    forall j :: 0 <= j < |messages| && i < j ==> !IsUser(messages[j])
  }

  /** Nothing when no message is the user's; otherwise the one that no user message follows. */
  lemma {:induction false} LastUserIsLast(messages: seq<Message>, i: int)
    requires NoUserAfter(messages, i)
    ensures i < 0 ==> LastUser(messages) == ""
    ensures 0 <= i < |messages| && IsUser(messages[i]) ==> LastUser(messages) == messages[i].content
    decreases |messages|
  {
    if messages != [] && !IsUser(messages[|messages| - 1]) {
      LastUserIsLast(messages[..|messages| - 1], i);
    }
  }

  method LastUserMessage(messages: seq<Message>) returns (text: string)
    ensures text == LastUser(messages)
  {
    var i := |messages|;
    assert messages[..i] == messages;
    while i > 0
      invariant 0 <= i <= |messages|
      invariant LastUser(messages) == LastUser(messages[..i])
    {
      i := i - 1;
      assert messages[..i + 1][..i] == messages[..i];
      if IsUser(messages[i]) {
        return messages[i].content;
      }
    }
    text := "";
  }
}
