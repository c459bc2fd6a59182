/**
 The chat widget: a send appends the user's message, posts the whole history, and on a reply
 appends the assistant's answer. The network call is the `reply` parameter.
 */
module ChatWidget {
  import opened Wrappers
  import opened Text
  import Backend

  datatype Role = User | Assistant | System
  datatype Message = Message(role: Role, content: string)

  datatype ChatState = ChatState(messages: seq<Message>, input: string, loading: bool)

  /** What the first half of `handleSend` leaves behind, and the history it posts (None: nothing sent). */
  datatype Sending = Sending(state: ChatState, request: Option<seq<Message>>)

  /** `handleSend` up to the network call. */
  function BeginSend(s: ChatState): (r: Sending)
    ensures IsBlank(s.input) ==> r == Sending(s, None)
    ensures !IsBlank(s.input) ==>
              r.request == Some(s.messages + [Message(User, s.input)])
              && r.state == ChatState(r.request.value, "", true)
  {
    TrimEmptyIffBlank(s.input);
    if Trim(s.input) == [] then Sending(s, None)
    else
      var sent := s.messages + [Message(User, s.input)];
      Sending(ChatState(sent, "", true), Some(sent))
  }

  const FailureAlert := "Something went wrong"

  /** The state after a send, and the text of the `alert` it raised, if any. */
  datatype Finished = Finished(state: ChatState, alert: Option<string>)

  /**
   `handleSend` after the call: a reply is appended to the history that was posted; a failure
   keeps the history as it is and raises the alert. Loading ends either way.
   */
  function FinishSend(s: ChatState, sent: seq<Message>, reply: Option<string>): (r: Finished)
    ensures !r.state.loading && r.state.input == s.input
    ensures reply.Some? ==> r.state.messages == sent + [Message(Assistant, reply.value)]
    ensures reply.None? ==> r.state.messages == s.messages
    ensures r.alert.Some? <==> reply.None?
    ensures r.alert.Some? ==> r.alert.value == FailureAlert
  {
    if reply.Some? then Finished(s.(messages := sent + [Message(Assistant, reply.value)], loading := false), None)
    else Finished(s.(loading := false), Some(FailureAlert))
  }

  /** A whole send with no other event in between. */
  function HandleSend(s: ChatState, reply: Option<string>): (r: Finished)
    ensures IsBlank(s.input) ==> r == Finished(s, None)
    ensures !IsBlank(s.input) && reply.Some? ==>
              r == Finished(ChatState(s.messages + [Message(User, s.input), Message(Assistant, reply.value)], "", false), None)
    ensures !IsBlank(s.input) && reply.None? ==>
              r == Finished(ChatState(s.messages + [Message(User, s.input)], "", false), Some(FailureAlert))
  {
    var b := BeginSend(s);
    if b.request.None? then Finished(s, None)
    else FinishSend(b.state, b.request.value, reply)
  }

  /** The history only grows: the earlier messages stay in place. */
  lemma SendKeepsHistory(s: ChatState, reply: Option<string>)
    ensures var r := HandleSend(s, reply).state;
            |r.messages| >= |s.messages| && r.messages[..|s.messages|] == s.messages
  {
    var r := HandleSend(s, reply).state;
    if !IsBlank(s.input) {
      assert r.messages[..|s.messages|] == s.messages;
    }
  }

  /** The alert is raised exactly when a non-blank message found no reply. */
  lemma AlertIffFailedSend(s: ChatState, reply: Option<string>)
    ensures HandleSend(s, reply).alert.Some? <==> !IsBlank(s.input) && reply.None?
  {
  }

  /** The wire form of a message for the backend. */
  function ToBackend(m: Message): Backend.ChatMessage {
    Backend.ChatMessage(match m.role case User => "user" case Assistant => "assistant" case System => "system", m.content)
  }

  /** Against the backend, the answer is chosen by the text just typed. */
  lemma BackendAnswersInput(s: ChatState)
    requires !IsBlank(s.input)
    ensures var sent := BeginSend(s).request.value;
            var wire := seq(|sent|, i requires 0 <= i < |sent| => ToBackend(sent[i]));
            Backend.Chat(wire) == Backend.Ok(Backend.ReplyFor(s.input))
  {
  }

  /** `handleKeyPress`: Enter without Shift sends. */
  predicate SendsOnKey(key: string, shift: bool) {
    key == "Enter" && !shift
  }

  /** A key press sends exactly on Enter without Shift and otherwise leaves the state alone. */
  function HandleKeyPress(s: ChatState, key: string, shift: bool, reply: Option<string>): (r: Finished)
    ensures !SendsOnKey(key, shift) ==> r == Finished(s, None)
    ensures SendsOnKey(key, shift) ==> r == HandleSend(s, reply)
  {
    if key == "Enter" && !shift then HandleSend(s, reply) else Finished(s, None)
  }

  /** Shift+Enter never sends, whatever was typed. */
  lemma ShiftEnterNeverSends(s: ChatState, reply: Option<string>)
    ensures HandleKeyPress(s, "Enter", true, reply) == Finished(s, None)
  {
  }
}
