/** The chat page's message list: sending a typed message, appending the agent's reply,
    and the voice session's streaming handlers that grow the current bot message. */
module Chat {
  import opened Js
  import Agent

  /** `{ user?: string, bot?: string }`. */
  datatype Message = Message(user: Option<string>, bot: Option<string>)

  /** How the request to /api/agent settled: the `ok` flag with `data.output` and
      `data.error`, or an exception with its `message` and its string form. */
  datatype AgentReply =
    | Replied(ok: bool, output: Option<string>, error: Option<string>)
    | Failed(message: string, described: string)

  /** The message list together with `currentBotIndex`, the index the voice session's
      handlers share. */
  datatype Stream = Stream(messages: seq<Message>, current: Option<int>)

  const ErrorPrefix: string := "**Error:** "
  const UnknownError: string := "Unknown error"

  function UserMessage(text: string): Message {
    Message(Some(text), None)
  }

  function BotMessage(text: string): Message {
    Message(None, Some(text))
  }

  /** The message `sendMessage` appends once the request settles. */
  function ReplyMessage(reply: AgentReply): (m: Message)
    ensures m.user.None?
    ensures reply.Replied? && reply.ok ==> m.bot == reply.output
    ensures !(reply.Replied? && reply.ok) ==> m.bot.Some? && ErrorPrefix <= m.bot.value
    ensures reply.Replied? && !reply.ok && !Filled(reply.error) ==> m == BotMessage(ErrorPrefix + UnknownError)
    ensures reply.Replied? && !reply.ok && Filled(reply.error) ==> m == BotMessage(ErrorPrefix + reply.error.value)
    ensures reply.Failed? && reply.message != "" ==> m == BotMessage(ErrorPrefix + reply.message)
    ensures reply.Failed? && reply.message == "" ==> m == BotMessage(ErrorPrefix + reply.described)
  {
    match reply
    case Replied(ok, output, error) =>
      if ok then Message(None, output)
      else BotMessage(ErrorPrefix + (if Filled(error) then error.value else UnknownError))
    case Failed(message, described) =>
      BotMessage(ErrorPrefix + (if message != "" then message else described))
  }

  /** `prev[currentBotIndex]?.bot` is a non-empty string. */
  predicate HasBotText(messages: seq<Message>, i: int) {
    0 <= i < |messages| && Filled(messages[i].bot)
  }

  /** The `response.delta` handler: an empty delta changes nothing; otherwise the text
      is appended to the current bot message when there is one, else it starts a new
      bot message that becomes the current one. */
  function Delta(s: Stream, content: Option<string>): (r: Stream)
    ensures !Filled(content) ==> r == s
    ensures Filled(content) ==> r.current.Some? && HasBotText(r.messages, r.current.value)
    ensures Filled(content) && s.current.Some? && HasBotText(s.messages, s.current.value) ==>
      && r.current == s.current
      && |r.messages| == |s.messages|
      && (forall i | 0 <= i < |s.messages| && i != s.current.value :: r.messages[i] == s.messages[i])
      && r.messages[s.current.value].user == s.messages[s.current.value].user
      && r.messages[s.current.value].bot == Some(s.messages[s.current.value].bot.value + content.value)
    ensures Filled(content) && !(s.current.Some? && HasBotText(s.messages, s.current.value)) ==>
      r.messages == s.messages + [BotMessage(content.value)] && r.current == Some(|s.messages|)
  {
    if !Filled(content) then s
    else if s.current.Some? && HasBotText(s.messages, s.current.value) then
      var i := s.current.value;
      var m := s.messages[i];
      Stream(s.messages[i := m.(bot := Some(m.bot.value + content.value))], s.current)
    else
      Stream(s.messages + [BotMessage(content.value)], Some(|s.messages|))
  }

  /** The `response.completed` handler. */
  function Completed(s: Stream): (r: Stream)
    ensures r.messages == s.messages && r.current.None?
  {
    s.(current := None)
  }

  /** After a completion the next non-empty delta starts a new bot message at the end of
      the list, even when the previous response's message is still last. */
  lemma NextResponseStartsNewMessage(s: Stream, content: string)
    requires content != ""
    ensures Delta(Completed(s), Some(content))
      == Stream(s.messages + [BotMessage(content)], Some(|s.messages|))
  {
  }

  /** A run of deltas with no completion between them. */
  function Deltas(s: Stream, parts: seq<string>): Stream
    decreases |parts|
  {
    if parts == [] then s else Deltas(Delta(s, Some(parts[0])), parts[1..])
  }

  function Concat(parts: seq<string>): string
    decreases |parts|
  {
    if parts == [] then "" else parts[0] + Concat(parts[1..])
  }

  /** After a completion, a run of non-empty deltas produces exactly one new bot message
      at the end of the list, holding their concatenation; the rest of the list is kept. */
  lemma {:induction false} ResponseBecomesOneMessage(s: Stream, parts: seq<string>)
    requires s.current.None? && parts != []
    requires forall j | 0 <= j < |parts| :: parts[j] != ""
    ensures Deltas(s, parts) == Stream(s.messages + [BotMessage(Concat(parts))], Some(|s.messages|))
  {
    var first := Delta(s, Some(parts[0]));
    assert first == Stream(s.messages + [BotMessage(parts[0])], Some(|s.messages|));
    GrowsCurrent(s.messages, parts[0], parts[1..]);
    assert Concat(parts) == parts[0] + Concat(parts[1..]);
  }

  lemma {:induction false} GrowsCurrent(prefix: seq<Message>, acc: string, parts: seq<string>)
    requires acc != ""
    requires forall j | 0 <= j < |parts| :: parts[j] != ""
    ensures Deltas(Stream(prefix + [BotMessage(acc)], Some(|prefix|)), parts)
      == Stream(prefix + [BotMessage(acc + Concat(parts))], Some(|prefix|))
    decreases |parts|
  {
    var s := Stream(prefix + [BotMessage(acc)], Some(|prefix|));
    if parts == [] {
      assert acc + "" == acc;
    } else {
      var next := Delta(s, Some(parts[0]));
      assert next.messages == prefix + [BotMessage(acc + parts[0])];
      GrowsCurrent(prefix, acc + parts[0], parts[1..]);
      assert acc + parts[0] + Concat(parts[1..]) == acc + Concat(parts);
    }
  }

  /** A message sent while a response streams does not move the index: the next delta
      still extends the earlier bot message, which now sits above the user's message. */
  lemma DeltaAfterInterleavedMessage(s: Stream, typed: string, content: string)
    requires s.current.Some? && HasBotText(s.messages, s.current.value) && content != ""
    ensures var t := Delta(Stream(s.messages + [UserMessage(typed)], s.current), Some(content));
      && |t.messages| == |s.messages| + 1
      && t.messages[|s.messages|] == UserMessage(typed)
      && t.messages[s.current.value].bot == Some(s.messages[s.current.value].bot.value + content)
  {
  }

  /** A prompt the page sends always passes the agent's prompt check and, with no tool
      type, goes to web search. */
  lemma SentPromptReachesModel(input: string)
    requires Trim(input) != ""
    ensures Agent.OracleCall(Agent.Fields(Str(input), Undefined))
      == Some(Agent.OracleRequest(Agent.ModelName, [Agent.WebSearch], input))
  {
    assert input != "";
  }

  /** The chat page's state. */
  class ChatPage {
    var input: string
    var messages: seq<Message>
    var loading: bool
    /** `currentBotIndex` of the active voice session. */
    var current: Option<int>

    constructor ()
      ensures input == "" && messages == [] && !loading && current == None
    {
      input := "";
      messages := [];
      loading := false;
      current := None;
    }

    /** The textarea's `onChange`. */
    method Type(text: string)
      modifies this
      ensures input == text
      ensures messages == old(messages) && loading == old(loading) && current == old(current)
    {
      input := text;
    }

    /** `sendMessage` up to `fetch`: blank input changes nothing; otherwise the input
        is cleared, appended untrimmed as a user message, `loading` is set and the
        input is the prompt posted to /api/agent. */
    method SendMessage() returns (prompt: Option<string>)
      modifies this
      ensures current == old(current)
      ensures Trim(old(input)) == "" ==>
        prompt == None && input == old(input) && messages == old(messages) && loading == old(loading)
      ensures Trim(old(input)) != "" ==>
        && prompt == Some(old(input)) && input == "" && loading
        && messages == old(messages) + [UserMessage(old(input))]
    {
      if Trim(input) == "" {
        return None;
      }
      var typed := input;
      input := "";
      messages := messages + [UserMessage(typed)];
      loading := true;
      prompt := Some(typed);
    }

    /** `sendMessage` once the request settles: exactly one reply message is appended
        and `loading` ends false. */
    method ReceiveReply(reply: AgentReply)
      modifies this
      ensures messages == old(messages) + [ReplyMessage(reply)]
      ensures !loading && input == old(input) && current == old(current)
    {
      messages := messages + [ReplyMessage(reply)];
      loading := false;
    }

    /** A new voice session starts with no current bot message. */
    method StartStream()
      modifies this
      ensures current == None
      ensures messages == old(messages) && input == old(input) && loading == old(loading)
    {
      current := None;
    }

    /** `startVoiceSession` failing: the error's string form is shown as a bot message. */
    method FailVoiceStart(described: string)
      modifies this
      ensures messages == old(messages) + [BotMessage(ErrorPrefix + described)]
      ensures input == old(input) && loading == old(loading) && current == old(current)
    {
      messages := messages + [BotMessage(ErrorPrefix + described)];
    }

    /** The `response.delta` handler, updating the current bot message in place. */
    method OnDelta(content: Option<string>)
      modifies this
      ensures Stream(messages, current) == Delta(Stream(old(messages), old(current)), content)
      ensures input == old(input) && loading == old(loading)
    {
      if !Filled(content) {
        return;
      }
      if current.Some? && HasBotText(messages, current.value) {
        var i := current.value;
        messages := messages[i := messages[i].(bot := Some(messages[i].bot.value + content.value))];
      } else {
        messages := messages + [BotMessage(content.value)];
        current := Some(|messages| - 1);
      }
    }

    /** The `response.completed` handler. */
    method OnCompleted()
      modifies this
      ensures Stream(messages, current) == Completed(Stream(old(messages), old(current)))
      ensures input == old(input) && loading == old(loading)
    {
      current := None;
    }
  }
}
