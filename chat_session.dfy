/** The chat hook of src/hooks/useChat.ts: the message list, the loading flag and the current
    conversation, and `sendMessage`, which appends the user's message, makes sure a
    conversation exists, posts the history to the chat function and decodes the streamed
    reply into one growing assistant message.

    Collaborators are inputs: the signed-in user, the two `crypto.randomUUID` values, the id
    the database gives a new conversation (None when the insert fails), what `fetch` yields
    and the JSON parser of SseFramer. The rows the hook writes to the database are kept as
    logs, so that what it saves can be stated. */
module ChatSession {
  import opened Text
  import opened SseFramer

  datatype Role = User | Assistant

  datatype Attachment = Attachment(url: string, kind: string, name: string)

  /** A message of the list; `attachments` is the optional `attachments?` field. */
  datatype Message = Message(id: string, role: Role, content: string,
                             attachments: Option<seq<Attachment>>)

  /** What one element of the request body's `messages` holds. */
  datatype WireMessage = WireMessage(role: Role, content: string)

  /** The body posted to the chat function. */
  datatype ChatRequest = ChatRequest(messages: seq<WireMessage>, systemPrompt: Option<string>)

  /** A row written to the `messages` table. */
  datatype SavedMessage = SavedMessage(conversationId: string, role: Role, content: string)

  /** A row written to the `conversations` table. */
  datatype NewConversation = NewConversation(userId: string, title: string,
                                             moduleId: Option<string>)

  /** A row read back from the `messages` table. */
  datatype StoredMessage = StoredMessage(id: string, role: Role, content: string)

  /** What `fetch` gives: a thrown value (its message when it is an `Error`), or a response
      with its `ok` flag, status, the `error` field of its JSON body (None when the body is not
      JSON or has no such field) and its body as decoded text chunks (None when absent). */
  datatype Reply =
    | Thrown(message: Option<string>)
    | Answered(ok: bool, status: int, errorField: Option<string>, body: Option<seq<string>>)

  const RateLimitMessage: string := "Rate limit exceeded. कृपया कुछ देर बाद try करें।"
  const CreditsMessage: string := "Credits खत्म हो गए। Please add credits to continue."
  const FailedResponseMessage: string := "Failed to get response"
  const NoBodyMessage: string := "No response body"
  const SendFailedMessage: string := "Failed to send message"
  const NewChatTitle: string := "New Chat"
  const TitleLength: nat := 50
  const AttachmentsOpening: string := "\n\n[Attachments: "

  predicate HasAttachments(attachments: Option<seq<Attachment>>) {
    attachments.Some? && |attachments.value| > 0
  }

  /** The guard of `sendMessage`: a blank input without attachments, or a reply in progress. */
  predicate IgnoredSend(input: string, attachments: Option<seq<Attachment>>, isLoading: bool) {
    (Trim(input) == "" && !HasAttachments(attachments)) || isLoading
  }

  function Names(attachments: seq<Attachment>): seq<string> {
    seq(|attachments|, i requires 0 <= i < |attachments| => attachments[i].name)
  }

  /** The text of the user's message: the trimmed input, followed, when there are attachments,
      by a blank line and the list of their names. */
  function MessageContent(input: string, attachments: Option<seq<Attachment>>): string {
    if HasAttachments(attachments)
    then Trim(input) + AttachmentsOpening + Join(Names(attachments.value), ", ") + "]"
    else Trim(input)
  }

  /** A send that gets past the guard never produces an empty message. */
  lemma MessageContentNotEmpty(input: string, attachments: Option<seq<Attachment>>, loading: bool)
    requires !IgnoredSend(input, attachments, loading)
    ensures MessageContent(input, attachments) != ""
  {
    if HasAttachments(attachments) {
      var c := MessageContent(input, attachments);
      assert c[|Trim(input)|] == '\n';
    }
  }

  /** The title of a new conversation, from the trimmed first message. */
  function ConversationTitle(first: string): string {
    if first == "" then NewChatTitle
    else if |first| > TitleLength then first[..TitleLength] + "..."
    else first
  }

  /** The title is "New Chat" for an empty first message, the message itself when it has at
      most 50 characters, and otherwise its first 50 characters followed by "...". It is never
      empty and has at most 53 characters. */
  lemma TitleSpec(first: string)
    ensures first == "" ==> ConversationTitle(first) == NewChatTitle
    ensures 0 < |first| <= TitleLength ==> ConversationTitle(first) == first
    ensures |first| > TitleLength ==>
              StartsWith(ConversationTitle(first), first[..TitleLength])
              && EndsWith(ConversationTitle(first), "...")
              && |ConversationTitle(first)| == TitleLength + 3
    ensures 0 < |ConversationTitle(first)| <= TitleLength + 3
  {
    var t := ConversationTitle(first);
    if |first| > TitleLength {
      assert t[..TitleLength] == first[..TitleLength];
      assert t[|t| - 3..] == "...";
    }
  }

  /** The message a failed send reports, or None when the reply is a response whose body can
      be read. */
  function ResponseError(r: Reply): Option<string> {
    match r
    case Thrown(m) => Some(if m.Some? then m.value else SendFailedMessage)
    case Answered(ok, status, errorField, body) =>
      if !ok then
        if status == 429 then Some(RateLimitMessage)
        else if status == 402 then Some(CreditsMessage)
        else if errorField.Some? && errorField.value != "" then errorField
        else Some(FailedResponseMessage)
      else if body.None? then Some(NoBodyMessage)
      else None
  }

  /** The reply is streamed exactly when there is no error: an ok response with a body.
      A non-ok status always reports a non-empty message, whatever the error body says. */
  lemma ResponseErrorSpec(r: Reply)
    ensures ResponseError(r).None? <==> r.Answered? && r.ok && r.body.Some?
    ensures r.Answered? && !r.ok ==> ResponseError(r).Some? && ResponseError(r).value != ""
    ensures r.Answered? && !r.ok && r.status == 429 ==> ResponseError(r) == Some(RateLimitMessage)
    ensures r.Answered? && !r.ok && r.status == 402 ==> ResponseError(r) == Some(CreditsMessage)
  {
  }

  /** The text of the reply a response yields: the decoded stream of its body, or nothing. */
  function AnswerText(r: Reply, parse: Parser): string {
    if ResponseError(r).None? then StreamContent(r.body.value, parse) else ""
  }

  /** No message of the list has this id. */
  predicate FreshId(ms: seq<Message>, id: string) {
    forall i :: 0 <= i < |ms| ==> ms[i].id != id
  }

  /** `prev.map(m => m.id === id ? { ...m, content } : m)`. */
  function SetContent(ms: seq<Message>, id: string, content: string): (r: seq<Message>)
    ensures |r| == |ms|
  {
    if ms == [] then []
    else [if ms[0].id == id then ms[0].(content := content) else ms[0]]
         + SetContent(ms[1..], id, content)
  }

  lemma {:induction false} SetContentFresh(ms: seq<Message>, id: string, content: string)
    requires FreshId(ms, id)
    ensures SetContent(ms, id, content) == ms
  {
    if ms != [] {
      SetContentFresh(ms[1..], id, content);
    }
  }

  lemma {:induction false} SetContentAppend(xs: seq<Message>, ys: seq<Message>, id: string,
                                            content: string)
    ensures SetContent(xs + ys, id, content) == SetContent(xs, id, content) + SetContent(ys, id, content)
  {
    if xs == [] {
      assert xs + ys == ys;
    } else {
      assert (xs + ys)[1..] == xs[1..] + ys;
      SetContentAppend(xs[1..], ys, id, content);
    }
  }

  /** The last message is the assistant reply with this id. */
  predicate EndsWithReply(ms: seq<Message>, id: string) {
    |ms| > 0 && ms[|ms| - 1].role == Assistant && ms[|ms| - 1].id == id
  }

  /** The state updater of a content fragment: rewrite the reply if it is already the last
      message, otherwise append it. */
  function Upsert(ms: seq<Message>, id: string, content: string): seq<Message> {
    if EndsWithReply(ms, id) then SetContent(ms, id, content)
    else ms + [Message(id, Assistant, content, None)]
  }

  /** The message list while a reply with a fresh id streams: the list before it, plus, once
      some content has come, exactly one assistant message holding all of it. */
  function Shown(base: seq<Message>, id: string, reply: string): seq<Message> {
    if reply == "" then base else base + [Message(id, Assistant, reply, None)]
  }

  /** Each fragment keeps the list in that shape: the first appends one assistant message,
      the later ones rewrite only its content and leave every earlier message as it was. */
  lemma UpsertShown(base: seq<Message>, id: string, reply: string, reply': string)
    requires FreshId(base, id) && reply' != ""
    ensures Upsert(Shown(base, id, reply), id, reply') == Shown(base, id, reply')
  {
    if reply == "" {
      assert !EndsWithReply(base, id);
    } else {
      var a := Message(id, Assistant, reply, None);
      SetContentAppend(base, [a], id, reply');
      SetContentFresh(base, id, reply');
    }
  }

  /** The request body lists every message with its role and content only. */
  function Wire(ms: seq<Message>): (w: seq<WireMessage>)
    ensures |w| == |ms|
    ensures forall i :: 0 <= i < |ms| ==> w[i] == WireMessage(ms[i].role, ms[i].content)
  {
    if ms == [] then [] else [WireMessage(ms[0].role, ms[0].content)] + Wire(ms[1..])
  }

  /** The conversation a send ends up in: none without a user, the current one if it is
      truthy, else the one the insert created (None when it failed). */
  function EnsuredId(user: Option<string>, current: Option<string>, inserted: Option<string>)
    : Option<string>
  {
    if user.None? then None else if Truthy(current) then current else inserted
  }

  /** The messages-table rows a send writes: the user's message, then the reply when it is not
      empty; nothing without a conversation, or with an empty id. */
  function Saves(convId: Option<string>, userContent: string, reply: string): seq<SavedMessage> {
    if !Truthy(convId) then []
    else [SavedMessage(convId.value, User, userContent)]
         + (if reply != "" then [SavedMessage(convId.value, Assistant, reply)] else [])
  }

  /** The conversations-table rows `ensureConversation` writes: one titled after the first
      message, only when there is a user and no truthy current conversation. */
  function NewConversations(user: Option<string>, current: Option<string>, first: string,
                            moduleId: Option<string>): seq<NewConversation>
  {
    if user.Some? && !Truthy(current)
    then [NewConversation(user.value, ConversationTitle(first), NullIfEmpty(moduleId))]
    else []
  }

  lemma SavesSpec(convId: Option<string>, userContent: string, reply: string)
    ensures |Saves(convId, userContent, reply)| == (if !Truthy(convId) then 0 else if reply == "" then 1 else 2)
    ensures (exists i :: 0 <= i < |Saves(convId, userContent, reply)|
                         && Saves(convId, userContent, reply)[i].role == Assistant)
            <==> Truthy(convId) && reply != ""
  {
    var s := Saves(convId, userContent, reply);
    if Truthy(convId) && reply != "" {
      assert s[1].role == Assistant;
    }
  }

  class Chat {
    var messages: seq<Message>
    var isLoading: bool
    var conversationId: Option<string>
    /** The rows written to the `messages` table, in order. */
    var saved: seq<SavedMessage>
    /** The rows written to the `conversations` table, in order. */
    var inserted: seq<NewConversation>

    constructor()
      ensures messages == [] && !isLoading && conversationId.None?
      ensures saved == [] && inserted == []
    {
      messages := [];
      isLoading := false;
      conversationId := None;
      saved := [];
      inserted := [];
    }

    /** `ensureConversation`: the current conversation if its id is truthy (an empty id counts as
        none); otherwise a new one is inserted, titled after the first message, and becomes
        current when the insert works. */
    method EnsureConversation(user: Option<string>, moduleId: Option<string>, firstMessage: string,
                              insertedId: Option<string>)
      returns (id: Option<string>)
      modifies this
      ensures id == EnsuredId(user, old(conversationId), insertedId)
      ensures conversationId == (if id.Some? then id else old(conversationId))
      ensures inserted == old(inserted) + NewConversations(user, old(conversationId), firstMessage,
                                                           moduleId)
      ensures messages == old(messages) && isLoading == old(isLoading) && saved == old(saved)
    {
      if user.None? {
        return None;
      }
      if Truthy(conversationId) {
        return conversationId;
      }
      var title := ConversationTitle(firstMessage);
      inserted := inserted + [NewConversation(user.value, title, NullIfEmpty(moduleId))];
      if insertedId.None? {
        return None;
      }
      conversationId := insertedId;
      return insertedId;
    }

    /** The read loop of `sendMessage`: each chunk is appended to the buffer and the complete
        lines at its front are processed; each non-empty content fragment extends the reply and
        upserts the assistant message. The reply is the framer's decoding of the chunks. */
    method StreamReply(chunks: seq<string>, parse: Parser, assistantId: string)
      returns (reply: string)
      requires FreshId(messages, assistantId)
      modifies this
      ensures reply == StreamContent(chunks, parse)
      ensures messages == Shown(old(messages), assistantId, reply)
      ensures isLoading == old(isLoading) && conversationId == old(conversationId)
      ensures saved == old(saved) && inserted == old(inserted)
    {
      var buffer := "";
      reply := "";
      var k := 0;
      while k < |chunks|
        invariant 0 <= k <= |chunks|
        invariant Feed(chunks[k..], Framer(buffer, reply), parse) == Feed(chunks, Framer("", ""), parse)
        invariant messages == Shown(old(messages), assistantId, reply)
        invariant isLoading == old(isLoading) && conversationId == old(conversationId)
        invariant saved == old(saved) && inserted == old(inserted)
      {
        ghost var drained := Drain(buffer + chunks[k], reply, parse);
        assert Feed(chunks[k..], Framer(buffer, reply), parse) == Feed(chunks[k + 1..], drained, parse) by {
          assert chunks[k..][1..] == chunks[k + 1..];
        }
        var shown;
        buffer, reply, shown := DrainLines(buffer + chunks[k], reply, messages, parse, assistantId,
                                           old(messages));
        messages := shown;
        assert Framer(buffer, reply) == drained;
        k := k + 1;
      }
      assert chunks[k..] == [];
    }

    /** The inner loop of the read loop: the complete lines at the front of the buffer are
        processed until none is left, "[DONE]" is met or a payload fails to parse (it is then
        put back). It ends in the state the framer's `Drain` computes; `shown` is the message
        list the `setMessages` updaters of its fragments produce. */
    method DrainLines(start: string, reply0: string, shown0: seq<Message>, parse: Parser,
                      assistantId: string, ghost base: seq<Message>)
      returns (buffer: string, reply: string, shown: seq<Message>)
      requires FreshId(base, assistantId) && shown0 == Shown(base, assistantId, reply0)
      ensures Framer(buffer, reply) == Drain(start, reply0, parse)
      ensures shown == Shown(base, assistantId, reply)
    {
      buffer := start;
      reply := reply0;
      shown := shown0;
      while IndexOf(buffer, '\n') != -1
        invariant Drain(buffer, reply, parse) == Drain(start, reply0, parse)
        invariant shown == Shown(base, assistantId, reply)
        decreases |buffer|
      {
        var i := IndexOf(buffer, '\n');
        var line := buffer[..i];
        ghost var whole := buffer;
        buffer := buffer[i + 1..];
        if EndsWith(line, "\r") {
          line := line[..|line| - 1];
        }
        assert line == StripCR(whole[..i]);
        if StartsWith(line, ":") || Trim(line) == "" {
          DrainSkipped(whole, reply, parse);
          continue;
        }
        if !StartsWith(line, DataPrefix) {
          DrainSkipped(whole, reply, parse);
          continue;
        }
        var json := Trim(line[|DataPrefix|..]);
        if json == DoneSentinel {
          DrainDone(whole, reply, parse);
          break;
        }
        var parsed := parse(json);
        if parsed.Malformed? {
          DrainMalformed(whole, reply, parse);
          buffer := line + "\n" + buffer;
          break;
        }
        DrainFragment(whole, reply, parse);
        var content := parsed.content;
        if content.Some? && content.value != "" {
          UpsertShown(base, assistantId, reply, reply + content.value);
          reply := reply + content.value;
          shown := Upsert(shown, assistantId, reply);
        } else {
          assert reply + FragmentOf(parsed) == reply;
        }
      }
    }

    /** The part of `sendMessage` after the request is sent: a failed response is reported as
        `ResponseError` says; otherwise the body is streamed into the assistant message and the
        reply is saved when there is a conversation and the reply is not empty. */
    method ReadResponse(response: Reply, parse: Parser, assistantId: string,
                        convId: Option<string>)
      returns (error: Option<string>, reply: string)
      requires FreshId(messages, assistantId)
      modifies this
      ensures error == ResponseError(response) && reply == AnswerText(response, parse)
      ensures messages == Shown(old(messages), assistantId, reply)
      ensures saved == old(saved) + (if Truthy(convId) && reply != ""
                                     then [SavedMessage(convId.value, Assistant, reply)] else [])
      ensures isLoading == old(isLoading) && conversationId == old(conversationId)
      ensures inserted == old(inserted)
    {
      error := ResponseError(response);
      reply := "";
      if error.None? {
        ResponseErrorSpec(response);
        reply := StreamReply(response.body.value, parse, assistantId);
        if Truthy(convId) && reply != "" {
          saved := saved + [SavedMessage(convId.value, Assistant, reply)];
        }
      }
    }

    /** `sendMessage`. A send the guard lets through appends the user's message, settles the
        conversation, saves the user's message in it, posts the history before the send plus
        the new message, and streams the reply into one assistant message; the reply is saved
        only when there is a conversation and it is not empty, a failure is reported as
        `ResponseError` says, and the loading flag is cleared at the end. */
    method SendMessage(input: string, systemPrompt: Option<string>, moduleId: Option<string>,
                       attachments: Option<seq<Attachment>>, user: Option<string>,
                       userMessageId: string, assistantId: string, insertedId: Option<string>,
                       response: Reply, parse: Parser)
      returns (request: Option<ChatRequest>, error: Option<string>)
      requires FreshId(messages, assistantId) && userMessageId != assistantId
      modifies this
      ensures IgnoredSend(input, attachments, old(isLoading)) ==>
                request.None? && error.None? && messages == old(messages)
                && isLoading == old(isLoading) && conversationId == old(conversationId)
                && saved == old(saved) && inserted == old(inserted)
      ensures !IgnoredSend(input, attachments, old(isLoading)) ==>
                var u := Message(userMessageId, User, MessageContent(input, attachments), attachments);
                var convId := EnsuredId(user, old(conversationId), insertedId);
                && request == Some(ChatRequest(Wire(old(messages) + [u]), systemPrompt))
                && error == ResponseError(response)
                && messages == Shown(old(messages) + [u], assistantId, AnswerText(response, parse))
                && saved == old(saved) + Saves(convId, u.content, AnswerText(response, parse))
                && conversationId == (if convId.Some? then convId else old(conversationId))
                && inserted == old(inserted) + NewConversations(user, old(conversationId),
                                                                Trim(input), moduleId)
                && !isLoading
    {
      if (Trim(input) == "" && !HasAttachments(attachments)) || isLoading {
        return None, None;
      }
      var user_message := Message(userMessageId, User, MessageContent(input, attachments), attachments);
      var history := messages;
      messages := messages + [user_message];
      isLoading := true;
      var convId := EnsureConversation(user, moduleId, Trim(input), insertedId);
      if Truthy(convId) {
        saved := saved + [SavedMessage(convId.value, User, user_message.content)];
      }
      request := Some(ChatRequest(Wire(history + [user_message]), systemPrompt));
      ghost var savedBefore := saved;
      var reply;
      error, reply := ReadResponse(response, parse, assistantId, convId);
      assert saved == old(saved) + Saves(convId, user_message.content, reply) by {
        if Truthy(convId) {
          AppendAssoc(old(saved), [SavedMessage(convId.value, User, user_message.content)],
                      saved[|savedBefore|..]);
        }
      }
      isLoading := false;
    }

    /** `clearMessages`: an empty list and no current conversation. */
    method ClearMessages()
      modifies this
      ensures messages == [] && conversationId.None?
      ensures isLoading == old(isLoading) && saved == old(saved) && inserted == old(inserted)
    {
      messages := [];
      conversationId := None;
    }

    /** `loadConversation`: with a user and rows read, the conversation becomes current and
        the list is its messages, in order, without attachments; otherwise nothing changes. */
    method LoadConversation(user: Option<string>, convId: string, rows: Option<seq<StoredMessage>>)
      modifies this
      ensures user.Some? && rows.Some? ==>
                conversationId == Some(convId)
                && |messages| == |rows.value|
                && forall i :: 0 <= i < |rows.value| ==>
                     messages[i] == Message(rows.value[i].id, rows.value[i].role,
                                            rows.value[i].content, None)
      ensures user.None? || rows.None? ==>
                messages == old(messages) && conversationId == old(conversationId)
      ensures isLoading == old(isLoading) && saved == old(saved) && inserted == old(inserted)
    {
      if user.None? || rows.None? {
        return;
      }
      conversationId := Some(convId);
      messages := seq(|rows.value|, i requires 0 <= i < |rows.value| =>
                        Message(rows.value[i].id, rows.value[i].role, rows.value[i].content, None));
    }
  }
}
