/** The handlers of src/pages/Chat.tsx that gate a send on the usage limit and the module
    access rule, pick a module, and delete a conversation. What a handler hands to its
    collaborators (toasts, `incrementUsage`, `sendMessage`) is returned as the list of calls it
    makes, in order. */
module ChatPage {
  import opened Text
  import opened ChatSession
  import opened Subscription
  import opened Conversations
  import IdFilter
  import opened ModuleSelector

  /** A call a handler makes, in the order it makes them. */
  datatype PageCall =
    | Toast(title: string, description: string)
    | IncrementUsage(moduleId: string, hasImage: Option<bool>)
    | SendMessage(input: string, systemPrompt: string, moduleId: string,
                  attachments: Option<seq<Attachment>>)

  const LimitToast: PageCall :=
    Toast("Daily limit reached", "आपकी daily limit खत्म हो गई। Please upgrade your plan.")
  const LockedToast: PageCall :=
    Toast("Module locked", "This module is not available in your plan. Please upgrade.")
  const DeletedToast: PageCall := Toast("Deleted", "Conversation deleted successfully")

  predicate IsImageType(kind: string) {
    StartsWith(kind, "image/") || kind == "image"
  }

  /** `attachments.some(a => a.type.startsWith('image/') || a.type === 'image')`. */
  function AnyImage(attachments: seq<Attachment>): (r: bool)
    ensures r <==> exists k :: 0 <= k < |attachments| && IsImageType(attachments[k].kind)
  {
    if attachments == [] then false
    else IsImageType(attachments[0].kind) || AnyImage(attachments[1..])
  }

  /** `hasImage`: undefined without attachments, otherwise whether one of them is an image. */
  function HasImage(attachments: Option<seq<Attachment>>): (r: Option<bool>)
    ensures r.None? <==> attachments.None?
    ensures attachments == Some([]) ==> r == Some(false)
  {
    match attachments
    case None => None
    case Some(atts) => Some(AnyImage(atts))
  }

  /** What `checkUsage` reports for a given user and RPC answer. */
  function ReportedUsage(user: Option<string>, reply: UsageReply): Usage {
    if user.None? || reply.UsageFailed? then FallbackUsage else reply.data
  }

  /** The calls of `handleSendMessage`: the limit toast when usage is not allowed, else the
      locked toast when the module is closed, else one usage increment followed by the send. */
  function SendCalls(allowed: bool, accessible: bool, m: BrainModule, input: string,
                     attachments: Option<seq<Attachment>>): seq<PageCall>
  {
    if !allowed then [LimitToast]
    else if !accessible then [LockedToast]
    else [IncrementUsage(m.id, HasImage(attachments)),
          SendMessage(input, m.systemPrompt, m.id, attachments)]
  }

  /** A blocked send makes neither an increment nor a send; an allowed one increments exactly
      once, and before it sends. */
  lemma SendCallsSpec(allowed: bool, accessible: bool, m: BrainModule, input: string,
                      attachments: Option<seq<Attachment>>)
    ensures var calls := SendCalls(allowed, accessible, m, input, attachments);
            && (!(allowed && accessible) <==> forall k :: 0 <= k < |calls| ==> calls[k].Toast?)
            && (allowed && accessible ==>
                  && (forall k :: 0 <= k < |calls| && calls[k].IncrementUsage? ==> k == 0)
                  && (exists k :: 0 <= k < |calls| && calls[k].SendMessage?)
                  && forall k :: 0 <= k < |calls| && calls[k].SendMessage? ==> calls[0].IncrementUsage? && 0 < k)
  {
    var calls := SendCalls(allowed, accessible, m, input, attachments);
    if allowed && accessible {
      assert calls[1].SendMessage?;
    }
  }

  class Page {
    var selectedModule: BrainModule

    constructor(initial: BrainModule)
      ensures selectedModule == initial
    {
      selectedModule := initial;
    }

    /** `handleSendMessage`: usage is checked first; an exhausted limit stops with a toast,
        then a locked module stops with a toast; otherwise usage is incremented for the module,
        with whether an image is attached, and the message is sent with the module's prompt. */
    method HandleSendMessage(sub: SubscriptionState, user: Option<string>, checkReply: UsageReply,
                             incrementReply: UsageReply, input: string,
                             attachments: Option<seq<Attachment>>)
      returns (calls: seq<PageCall>)
      modifies sub
      ensures calls == SendCalls(ReportedUsage(user, checkReply).allowed,
                                 CanAccessModule(old(sub.currentPlan), selectedModule.id),
                                 selectedModule, input, attachments)
      ensures sub.plans == old(sub.plans) && sub.subscription == old(sub.subscription)
      ensures sub.currentPlan == old(sub.currentPlan)
      ensures var sent := ReportedUsage(user, checkReply).allowed
                          && CanAccessModule(old(sub.currentPlan), selectedModule.id);
              sub.usage == if user.Some? && sent && incrementReply.UsageData? then Some(incrementReply.data)
                           else if user.Some? && checkReply.UsageData? then Some(checkReply.data)
                           else old(sub.usage)
    {
      var usage := sub.CheckUsage(user, checkReply);
      if !usage.allowed {
        return [LimitToast];
      }
      if !CanAccessModule(sub.currentPlan, selectedModule.id) {
        return [LockedToast];
      }
      var hasImage := HasImage(attachments);
      var _, _ := sub.IncrementUsage(user, Some(selectedModule.id), hasImage, incrementReply);
      calls := [IncrementUsage(selectedModule.id, hasImage),
                SendMessage(input, selectedModule.systemPrompt, selectedModule.id, attachments)];
    }

    /** `handleSelectModule`: an accessible module becomes the selected one, with a toast
        naming it; a locked one changes nothing. */
    method HandleSelectModule(m: BrainModule, currentPlan: Option<Plan>) returns (toast: Option<PageCall>)
      modifies this
      ensures selectedModule == if CanAccessModule(currentPlan, m.id) then m else old(selectedModule)
      ensures toast.Some? <==> CanAccessModule(currentPlan, m.id)
      ensures toast.Some? ==>
                toast.value == Toast(m.name + " activated", if m.nameHi != "" then m.nameHi else m.description)
    {
      toast := None;
      if CanAccessModule(currentPlan, m.id) {
        selectedModule := m;
        toast := Some(Toast(m.name + " activated", if m.nameHi != "" then m.nameHi else m.description));
      }
    }
  }

  /** `handleDeleteConversation`: a successful delete removes the conversation from the list,
      clears the chat when it was the open one, and shows a toast; a failed one changes
      nothing. */
  method HandleDeleteConversation(list: ConversationList, chat: Chat, id: string, failed: bool)
    returns (toast: Option<PageCall>)
    modifies list, chat
    ensures list.conversations == if failed then old(list.conversations)
                                  else IdFilter.Without(old(list.conversations), ConversationId, id)
    ensures var cleared := !failed && old(chat.conversationId) == Some(id);
            && chat.messages == (if cleared then [] else old(chat.messages))
            && chat.conversationId == (if cleared then None else old(chat.conversationId))
    ensures chat.isLoading == old(chat.isLoading) && chat.saved == old(chat.saved)
    ensures chat.inserted == old(chat.inserted)
    ensures toast == if failed then None else Some(DeletedToast)
  {
    var success := list.DeleteConversation(id, failed);
    toast := None;
    if success {
      if chat.conversationId == Some(id) {
        chat.ClearMessages();
      }
      toast := Some(DeletedToast);
    }
  }

  /** `handleNewChat`: the chat is cleared. */
  method HandleNewChat(chat: Chat)
    modifies chat
    ensures chat.messages == [] && chat.conversationId.None?
    ensures chat.isLoading == old(chat.isLoading) && chat.saved == old(chat.saved)
    ensures chat.inserted == old(chat.inserted)
  {
    chat.ClearMessages();
  }

  /** `handleSelectConversation`: the chosen conversation is loaded into the chat. */
  method HandleSelectConversation(chat: Chat, user: Option<string>, id: string,
                                  rows: Option<seq<StoredMessage>>)
    modifies chat
    ensures user.Some? && rows.Some? ==>
              chat.conversationId == Some(id) && |chat.messages| == |rows.value|
              && forall i :: 0 <= i < |rows.value| ==>
                   chat.messages[i] == Message(rows.value[i].id, rows.value[i].role,
                                               rows.value[i].content, None)
    ensures user.None? || rows.None? ==>
              chat.messages == old(chat.messages) && chat.conversationId == old(chat.conversationId)
    ensures chat.isLoading == old(chat.isLoading) && chat.saved == old(chat.saved)
    ensures chat.inserted == old(chat.inserted)
  {
    chat.LoadConversation(user, id, rows);
  }
}
