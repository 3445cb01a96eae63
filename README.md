# Luvio chat: a verified model of the streaming send path

This project models, in Dafny, the core parts of the Luvio AI chat application:

- the chat hook that sends a message and streams the assistant's reply into the message list;
- the edge function that forwards the request to the AI gateway and relays its answer;
- the page handlers that check usage limits and module access before a send;
- the composer that uploads attachments, takes files and joins voice transcripts;
- the message bubble that hides the attachment list again;
- the hooks for subscriptions, conversations and notifications and their displays;
- the API-key generator.

Every hook or component that updates state in place is a `class`. Its fields are the React
state. Each callback is a method whose `modifies` clause names the state, and whose
`ensures` clauses state the whole new state. Pure computations are functions with lemmas.
Whatever comes from outside is a parameter of the operation:

- the database, storage and RPC answers;
- `fetch`;
- `JSON.parse`;
- `crypto.randomUUID`, `Math.random` and SHA-256;
- `toLowerCase` and `toUpperCase`.

Module layout, one module per source file:

- `Text` holds the JavaScript string operations the core uses: `trim` with the ECMAScript
  white-space set, `startsWith`, `includes`, `indexOf`, `split("@")[0]` and `join`.
- The reply decoder of `useChat.ts` is split out:
  - `SseFramer` is the line framer of the read loop, written as functions (`Drain`, `Feed`).
  - `LineSplit` is an independent reading of a text as complete lines and a tail, which the
    framer is proved against.
- `ChatSession` is the hook itself. Its `StreamReply` and `DrainLines` loops are proved to
  compute exactly `SseFramer.Feed` and `SseFramer.Drain`.
- `IdFilter` is the `filter(x => x.id !== id)` removal that the conversation and notification
  hooks both use, stated once for any row type.
- `ChatFunction` is the edge function. `ClientSeesRelay` connects it to the hook's error
  handling.

## Model

| member | source | states |
|---|---|---|
| Text.TrimEmptyIff | src/hooks/useChat.ts:94 | `trim()` is empty exactly when every character is ECMAScript white space or a line terminator |
| Text.TrimStartSpec | src/hooks/useChat.ts:96-98 | the left trim removes only white space and leaves a suffix starting with a non-space |
| Text.TrimEndSpec | src/hooks/useChat.ts:96-98 | the right trim removes only white space and leaves a prefix ending with a non-space |
| Text.TrimKeepsNonSpace | src/hooks/useChat.ts:94 | a string holding one non-space character never trims to empty |
| Text.NullIfEmpty | src/hooks/useChat.ts:65 | `x \|\| null` on an optional string: null exactly when absent or empty, otherwise the value itself |
| Text.ContainsIff | src/components/ModuleSelector.tsx:31-33 | `includes` holds exactly when the substring occurs at some index |
| Text.IndexOf | src/hooks/useChat.ts:163 | `indexOf` returns -1 or an index holding the character |
| Text.IndexOfSpec | src/hooks/useChat.ts:163 | -1 exactly when the character is absent; otherwise no earlier index holds it |
| Text.BeforeFirst | src/components/UserDropdown.tsx:29 | `split(c)[0]` is a prefix of the string, followed by `c` when shorter |
| Text.BeforeFirstSpec | src/components/UserDropdown.tsx:29 | `split(c)[0]` holds no `c`, and equals the whole string exactly when `c` is absent |
| Text.JoinHasNoLineTerminator | src/hooks/useChat.ts:97 | joining single-line names with a single-line separator gives a single line |
| Text.NatToString | src/components/NotificationsDropdown.tsx:104 | the decimal text of a count is non-empty and all digits, one digit below ten |
| LineSplit.SplitAppend | src/hooks/useChat.ts:160-165 | the complete lines of a buffer followed by a chunk are those of the buffer, then those of its tail followed by the chunk |
| LineSplit.FirstLine | src/hooks/useChat.ts:163-165 | the first complete line is the text before the first "\n", and the rest splits into the other lines |
| LineSplit.SplitNoLines | src/hooks/useChat.ts:163 | a text with no complete line holds no "\n" |
| SseFramer.StripCR | src/hooks/useChat.ts:167 | removing a trailing "\r" leaves a prefix that is at most one character shorter |
| SseFramer.Drain | src/hooks/useChat.ts:163-193 | a pass of the inner loop never shrinks the reply |
| SseFramer.Feed | src/hooks/useChat.ts:156-194 | the read loop never shrinks the reply |
| SseFramer.DrainSkipped | src/hooks/useChat.ts:168-169 | a comment, blank or non-data line is dropped and the loop goes on |
| SseFramer.DrainDone | src/hooks/useChat.ts:172 | "[DONE]" ends the pass and leaves the rest of the buffer untouched |
| SseFramer.DrainMalformed | src/hooks/useChat.ts:189-192 | a payload the parser rejects goes back, with "\n", in front of the rest, and the pass ends |
| SseFramer.DrainFragment | src/hooks/useChat.ts:174-188 | a parsed payload appends its content, when it is non-empty, and the loop goes on |
| SseFramer.DrainNoStop | src/hooks/useChat.ts:163-193 | with no stopping line, a pass appends the fragments of all complete lines in order and leaves the unterminated tail |
| SseFramer.DrainStop | src/hooks/useChat.ts:163-193 | a pass ends at the first stopping line, after appending the fragments of the lines before it |
| SseFramer.FeedNoStop | src/hooks/useChat.ts:156-194 | with no stopping line in the text, the reply is the fragments of all complete lines of buffer plus chunks |
| SseFramer.FeedStalled | src/hooks/useChat.ts:189-192 | once a rejected payload leads the buffer, no later chunk adds anything |
| SseFramer.ClassifyDataLine | src/hooks/useChat.ts:168-172 | a "data: " line is a "[DONE]" or a payload holding its trimmed remainder |
| SseFramer.ClassifyIgnoresTrailingCR | src/hooks/useChat.ts:167-171 | a payload line is read the same with or without one more trailing "\r" |
| SseFramer.StallsStripCR | src/hooks/useChat.ts:167-190 | a pushed-back rejected line is rejected again when it is read next |
| SseFramer.FeedStopsAtStall | src/hooks/useChat.ts:156-194 | when the first stopping line is a rejected payload, the reply is the fragments before it, however the text is cut into chunks |
| SseFramer.FeedStopsAtFinalDone | src/hooks/useChat.ts:156-194 | when the last complete line is "[DONE]" and nothing before it stops, the reply is the fragments before it |
| SseFramer.ChunkBoundaryIndependence | src/hooks/useChat.ts:156-194 | with no stopping line, the reply is the in-order fragments of all complete lines and does not depend on where chunks are cut |
| SseFramer.SplitFrameReassembles | src/hooks/useChat.ts:160-165 | a frame split over two chunks decodes as if it came in one |
| SseFramer.FinalDoneReply | src/hooks/useChat.ts:172 | a stream ending in a "[DONE]" line yields exactly the fragments of the lines before it |
| SseFramer.MalformedLineStallsStream | src/hooks/useChat.ts:189-192 | a rejected data line stops decoding for good: nothing after it reaches the reply |
| SseFramer.DoneBeforeLineDependsOnCut | src/hooks/useChat.ts:156-194 | "[DONE]" ends only the current pass: a line after a non-final "[DONE]" adds nothing when it is in the same chunk and adds its text when it comes in the next chunk |
| ChatSession.MessageContentNotEmpty | src/hooks/useChat.ts:94-98 | a send the guard lets through never has empty content |
| ChatSession.TitleSpec | src/hooks/useChat.ts:56-58 | "New Chat" for an empty message, the message up to 50 characters, otherwise 50 characters plus "..."; never empty and at most 53 characters |
| ChatSession.ResponseErrorSpec | src/hooks/useChat.ts:133-148 | no error exactly for an ok response with a body; a failed status always reports a non-empty message, with fixed texts for 429 and 402 |
| ChatSession.SetContent | src/hooks/useChat.ts:182-184 | the content update keeps the list's length |
| ChatSession.SetContentFresh | src/hooks/useChat.ts:182-184 | updating an id that no message has changes nothing |
| ChatSession.UpsertShown | src/hooks/useChat.ts:179-187 | the first fragment appends one assistant message, and later ones rewrite only its content |
| ChatSession.Wire | src/hooks/useChat.ts:125-128 | the request lists every message, in order, with only its role and content |
| ChatSession.SavesSpec | src/hooks/useChat.ts:114-116 | with a truthy conversation id the user's message is saved and the reply is saved only when non-empty; with no id or an empty one nothing is saved |
| ChatSession.Chat.EnsureConversation | src/hooks/useChat.ts:51-77 | a truthy current conversation id is kept; otherwise (none, or an empty id) one insert, titled after the first message, whose id becomes current on success |
| ChatSession.Chat.StreamReply | src/hooks/useChat.ts:150-194 | the read loop's reply equals the framer's decoding of the chunks, and the list shows it as one assistant message |
| ChatSession.Chat.DrainLines | src/hooks/useChat.ts:163-193 | the inner loop ends in exactly the buffer and reply that `Drain` computes |
| ChatSession.Chat.ReadResponse | src/hooks/useChat.ts:133-198 | a failure is reported as `ResponseError` says; otherwise the body is streamed, and a non-empty reply is saved when there is a conversation |
| ChatSession.Chat.SendMessage | src/hooks/useChat.ts:93-210 | an ignored send changes nothing; otherwise the user message is appended, the request carries the prior history plus it, the reply is streamed and saved as the rules say, and loading ends false |
| ChatSession.Chat.ClearMessages | src/hooks/useChat.ts:212-215 | the list empties and there is no current conversation; nothing else changes |
| ChatSession.Chat.LoadConversation | src/hooks/useChat.ts:27-49 | with a user and rows, the rows become the messages in order, without attachments; otherwise nothing changes |
| ChatMessageView.FirstMatch | src/components/ChatMessage.tsx:19 | the leftmost start where the attachment pattern matches, or none anywhere |
| ChatMessageView.MatchUnique | src/components/ChatMessage.tsx:19 | the anchored pattern can match at one start index at most |
| ChatMessageView.DisplayStrips | src/components/ChatMessage.tsx:19 | where the pattern matches, the bubble shows exactly the text before the match |
| ChatMessageView.DisplayUnchangedIff | src/components/ChatMessage.tsx:19 | the content is shown unchanged exactly when the pattern matches nowhere |
| ChatMessageView.DisplayRoundTrip | src/components/ChatMessage.tsx:19 | the bubble removes what `sendMessage` appended: it shows the trimmed input, provided the attachment names are single lines |
| ChatMessageView.ParagraphOfAttachmentMessage | src/components/ChatMessage.tsx:66-68 | an attachment message shows a text paragraph exactly when the typed input was not blank |
| ChatMessageView.AttachmentStrip | src/components/ChatMessage.tsx:40-65 | one view per attachment, in order, and none when the list is absent or empty |
| ChatInput.AttachmentKind | src/components/ChatInput.tsx:109 | "image" exactly for MIME types starting with "image/", otherwise "file" |
| ChatInput.PickedKindMatchesBubble | src/components/ChatMessage.tsx:50 | a picked image is drawn as an image in the bubble, and every other file as a chip |
| ChatInput.UploadedFilesSpec | src/components/ChatInput.tsx:37-74 | only successful uploads are handed on, each with its own URL, type and name; with no failure none is lost |
| ChatInput.UploadedFilesAppend | src/components/ChatInput.tsx:37-74 | uploads are handed on in order: one more pass adds only its own result |
| ChatInput.FirstMissingUser | src/components/ChatInput.tsx:38-46 | the first pass without a user, with every earlier pass having one |
| ChatInput.UploadAll | src/components/ChatInput.tsx:37-74 | the loop stops exactly when some pass finds no user, holding the successful uploads before that pass; otherwise it returns all successful uploads in order |
| ChatInput.Composer.HandleSubmit | src/components/ChatInput.tsx:29-89 | an ignored submit changes nothing; a missing user stops without sending; otherwise the input and uploaded files are sent, with none counting as absent, and the composer clears |
| ChatInput.RemovedAtSlices | src/components/ChatInput.tsx:133-135 | removing at an index in range drops exactly that element and keeps the order; any other index changes nothing |
| ChatInput.Composer.RemoveAttachment | src/components/ChatInput.tsx:133-135 | the attachment list becomes the filtered list; the input stays |
| ChatInput.IntakeSpec | src/components/ChatInput.tsx:99-128 | every refused file is a chosen one over 10 MB, every pending image a kept chosen image, every appended chip a kept chosen non-image with type "file" and no preview, and the three parts are together as long as the list |
| ChatInput.IntakeInOrder | src/components/ChatInput.tsx:99-128 | each part of the intake equals an independent front-to-back filter of the chosen files, so the order of the files is kept in every part |
| ChatInput.IntakeKeepsKept | src/components/ChatInput.tsx:99-128 | no file is lost: a file is refused exactly when it is chosen and over the limit, pending exactly when it is a kept image, and appended as a chip exactly when it is a kept non-image |
| ChatInput.IntakeRejectsBySize | src/components/ChatInput.tsx:100-107 | a file is refused exactly when it is larger than 10 MB |
| ChatInput.TakeFiles | src/components/ChatInput.tsx:99-128 | the `forEach` loop computes the intake of the whole list |
| ChatInput.Composer.HandleFileChange | src/components/ChatInput.tsx:95-131 | no file list changes nothing; otherwise non-images are appended at once and images are left pending |
| ChatInput.Composer.ImageLoaded | src/components/ChatInput.tsx:112-120 | a read image is appended with its data URL as the preview |
| ChatInput.WithTranscriptSpec | src/components/ChatInput.tsx:195 | the transcript is appended after the old input, with one space exactly when the old input was not empty |
| ChatInput.Composer.ApplyTranscript | src/components/ChatInput.tsx:194-206 | a truthy transcript is joined into the input; otherwise the input stays |
| ChatInput.Latin1RoundTrip | src/components/ChatInput.tsx:146 | the binary string keeps every byte as its character code |
| ChatInput.BinaryString | src/components/ChatInput.tsx:141-147 | the chunked loop builds the binary string of all bytes, in order, each exactly once |
| Subscription.NormalizePlan | src/hooks/useSubscription.ts:56-60 | a plan keeps its row's features only when they are an array, and otherwise has none |
| Subscription.NormalizePlans | src/hooks/useSubscription.ts:56-60 | one normalised plan per row, in order |
| Subscription.FindPlan | src/hooks/useSubscription.ts:80 | a plan found has the id, and none is found exactly when no plan has it |
| Subscription.FindPlanIsFirst | src/hooks/useSubscription.ts:80 | the plan found is the first with the id |
| Subscription.CanAccessModule | src/hooks/useSubscription.ts:131-141 | a module is closed exactly when a plan is loaded whose module array holds neither the id nor "default" |
| Subscription.DefaultOpensEveryModule | src/hooks/useSubscription.ts:138 | a module list holding "default" opens every module |
| Subscription.AccessGrowsWithIds | src/hooks/useSubscription.ts:137-139 | adding ids to a plan's module list never closes a module |
| Subscription.SubscriptionState.FetchPlans | src/hooks/useSubscription.ts:48-62 | the rows read replace the plans, normalised; an error keeps them |
| Subscription.SubscriptionState.FetchSubscription | src/hooks/useSubscription.ts:64-95 | a found subscription becomes current with its plan; otherwise a free subscription is inserted and, once returned, becomes current with the "free" plan |
| Subscription.SubscriptionState.CheckUsage | src/hooks/useSubscription.ts:97-110 | the fallback usage (0 of 50, allowed) without a user or on an error; otherwise the usage read is stored and returned |
| Subscription.SubscriptionState.IncrementUsage | src/hooks/useSubscription.ts:112-129 | no call without a user; otherwise the call has a null module for an empty id and false for an absent image flag, and a usage read is stored |
| IdFilter.Without | src/hooks/useConversations.ts:51 | the removal (also useNotifications.ts:81) leaves no row with the id and adds none |
| IdFilter.WithoutKeepsOthers | src/hooks/useNotifications.ts:81 | a row is kept exactly when it was in the list with another id |
| IdFilter.WithoutKeepsOrder | src/hooks/useConversations.ts:51 | the removal equals an independent back-to-front filter, so the order of the rows is kept |
| Conversations.Retitled | src/hooks/useConversations.ts:66 | the conversations with the id get the title and every other one stays as it was |
| Conversations.RetitledKeepsRest | src/hooks/useConversations.ts:66 | a retitle changes only titles; ids, timestamps and modules stay |
| Conversations.RetitledIdempotent | src/hooks/useConversations.ts:66 | retitling twice with the same title is retitling once |
| Conversations.ConversationList.Fetch | src/hooks/useConversations.ts:18-38 | without a user or on an error the list stays; otherwise it becomes the rows, and null data counts as none |
| Conversations.ConversationList.DeleteConversation | src/hooks/useConversations.ts:40-53 | true and the list filtered by `IdFilter.Without` on success; false and the list kept on failure |
| Conversations.ConversationList.UpdateConversationTitle | src/hooks/useConversations.ts:55-68 | true and the list retitled on success; false and the list kept on failure |
| ModuleSelector.FilteredIff | src/components/ModuleSelector.tsx:29-34 | the search keeps exactly the modules whose lower-cased name, Hindi name or description contains the lower-cased search |
| ModuleSelector.FilteredInOrder | src/components/ModuleSelector.tsx:29-34 | the search results keep the catalogue's order |
| ModuleSelector.InCategory | src/components/ModuleSelector.tsx:107 | the category filter keeps only modules of that category |
| ModuleSelector.InCategoryIff | src/components/ModuleSelector.tsx:107 | the category filter keeps exactly the catalogue's modules of that category |
| ModuleSelector.Label | src/components/ModuleSelector.tsx:113 | the heading is the category's non-empty display name, and otherwise the category itself |
| ModuleSelector.SectionSpec | src/components/ModuleSelector.tsx:106-145 | a block appears exactly for a non-empty category; it shows the first five modules at most, and "+N more" exactly when there are more than five |
| ModuleSelector.SectionsNonEmpty | src/components/ModuleSelector.tsx:108 | no drawn category block is empty |
| ModuleSelector.ListingFor | src/components/ModuleSelector.tsx:67-147 | a non-empty search shows the results list, and an empty search shows the category view |
| ModuleSelector.Selector.HandleSelect | src/components/ModuleSelector.tsx:36-42 | an accessible module is passed on, the menu closes and the search clears; a locked one changes nothing |
| ChatPage.AnyImage | src/pages/Chat.tsx:57 | true exactly when some attachment's type starts with "image/" or is "image" |
| ChatPage.HasImage | src/pages/Chat.tsx:57 | the image flag is undefined exactly when the attachment list is absent; an empty list gives false, as `[].some` does |
| ChatPage.SendCallsSpec | src/pages/Chat.tsx:35-63 | a blocked send only shows toasts; an allowed one increments usage exactly once, and before the send |
| ChatPage.Page.HandleSendMessage | src/pages/Chat.tsx:35-63 | makes the calls that usage and access decide, and leaves in the subscription state the usage it read last |
| ChatPage.Page.HandleSelectModule | src/pages/Chat.tsx:65-73 | an accessible module is selected with a toast naming it; a locked one changes nothing |
| ChatPage.HandleDeleteConversation | src/pages/Chat.tsx:85-96 | a successful delete removes the conversation, clears the chat if it was open and shows a toast; a failed one changes nothing |
| ChatPage.HandleNewChat | src/pages/Chat.tsx:80-83 | the chat is cleared |
| ChatPage.HandleSelectConversation | src/pages/Chat.tsx:75-78 | the chosen conversation's messages are loaded into the chat |
| ChatFunction.FinalPrompt | supabase/functions/chat/index.ts:46 | the client's prompt when non-empty, otherwise the default prompt |
| ChatFunction.GatewayMessages | supabase/functions/chat/index.ts:58-64 | the system prompt comes first, then the client's messages unchanged |
| ChatFunction.Handle | supabase/functions/chat/index.ts:9-105 | a preflight returns the CORS headers; an unreadable body or a missing key returns 500 without calling the gateway; otherwise one streamed gateway call, whose answer is relayed |
| ChatFunction.RelaySpec | supabase/functions/chat/index.ts:69-97 | only 429 and 402 pass through, every other failure is a 500, a success is a 200 event stream of the gateway's body, and all carry the CORS headers |
| ChatFunction.ClientSeesRelay | supabase/functions/chat/index.ts:69-103 | the hook shows the function's limit messages, a non-empty error for any failure, and on success decodes the gateway's own stream |
| Notifications.CountUnread | src/hooks/useNotifications.ts:34 | the unread count is at most the list's length |
| Notifications.MarkedRead | src/hooks/useNotifications.ts:49-51 | the items with the id become read and every other item stays as it was |
| Notifications.AllRead | src/hooks/useNotifications.ts:66 | every item becomes read and nothing else changes |
| Notifications.MarkedReadCount | src/hooks/useNotifications.ts:49-52 | marking an id read lowers the unread count by the number of unread items with that id |
| Notifications.WithoutCount | src/hooks/useNotifications.ts:81 | deleting an id lowers the unread count by the number of unread items with that id |
| Notifications.AllReadCount | src/hooks/useNotifications.ts:66-67 | after marking all read nothing is unread, so the counter's zero agrees |
| Notifications.NotificationCenter.Fetch | src/hooks/useNotifications.ts:21-37 | the rows read replace the list and the counter agrees with them; otherwise nothing changes |
| Notifications.NotificationCenter.MarkAsRead | src/hooks/useNotifications.ts:39-54 | on success the id is marked read and the counter drops by one, not below zero |
| Notifications.NotificationCenter.MarkAllAsRead | src/hooks/useNotifications.ts:56-69 | on success everything is read and the counter is zero and agrees |
| Notifications.NotificationCenter.DeleteNotification | src/hooks/useNotifications.ts:71-83 | on success the list is `IdFilter.Without` of the old one, which removes the id and keeps every other item in order; the counter is never touched |
| Notifications.NotificationCenter.RealtimeInsert | src/hooks/useNotifications.ts:128-132 | the new item goes first and the counter grows by one |
| Notifications.NotificationCenter.CreateNotification | src/hooks/useNotifications.ts:85-106 | one insert with a user and none without; a successful insert refetches the list |
| Notifications.MarkAsReadKeepsCount | src/hooks/useNotifications.ts:49-52 | the counter stays in agreement exactly when one unread item has the id, or when nothing was unread and none does |
| Notifications.DeleteKeepsCount | src/hooks/useNotifications.ts:80-82 | the counter stays in agreement exactly when no unread item has the id |
| Notifications.InsertKeepsCount | src/hooks/useNotifications.ts:128-132 | the counter stays in agreement exactly when the new item is unread |
| Notifications.DeleteUnreadLeavesCount | src/hooks/useNotifications.ts:80-82 | deleting an id that some unread item carries lowers the unread count of the list, which the untouched counter then exceeds |
| NotificationsView.IconSpec | src/components/NotificationsDropdown.tsx:23-36 | the four known types get four different icons; every other type, and only those, gets the bell |
| NotificationsView.BadgeTextSpec | src/components/NotificationsDropdown.tsx:104 | "9+" exactly above nine, otherwise the single digit; one or two characters |
| NotificationsView.ButtonsOf | src/components/NotificationsDropdown.tsx:58-81 | the mark-read button exactly for unread items, and delete always |
| NotificationsView.AfterMarkAll | src/components/NotificationsDropdown.tsx:102-121 | after marking all read: no badge, no "Mark all read" and no mark-read button |
| NotificationsView.UnreadIffSome | src/hooks/useNotifications.ts:34 | the unread count is positive exactly when some item is unread |
| NotificationsView.BadgeIffSomeButton | src/components/NotificationsDropdown.tsx:102 | with an agreeing counter, the badge shows exactly when some item carries a mark-read button |
| UserMenu.DisplayNameSpec | src/components/UserDropdown.tsx:29 | a non-empty full name wins, then the email's non-empty part before "@", then "User"; never empty |
| UserMenu.InitialSpec | src/components/UserDropdown.tsx:30 | the initial is the upper-cased first character of the shown name |
| ApiKeys.AlphabetIndex | src/pages/ApiKeys.tsx:41 | the 62-character alphabet is the capitals, then the small letters, then the digits, in order |
| ApiKeys.GenerateApiKey | src/pages/ApiKeys.tsx:40-47 | the loop builds "luvio_" followed by the alphabet character of each draw |
| ApiKeys.AlphabetIsAlphanumeric | src/pages/ApiKeys.tsx:41 | the alphabet has 62 characters, all letters or digits |
| ApiKeys.KeyShape | src/pages/ApiKeys.tsx:40-47 | a key has 54 characters: "luvio_" and 48 letters or digits |
| ApiKeys.KeyOfInjective | src/pages/ApiKeys.tsx:40-47 | different draws give different keys |
| ApiKeys.AlphabetDistinct | src/pages/ApiKeys.tsx:41 | no character repeats in the alphabet |
| ApiKeys.KeyPrefixShape | src/pages/ApiKeys.tsx:86 | the stored prefix has 15 characters: the key's first 12, starting with "luvio_", then "..." |
| ApiKeys.PaddedHex | src/pages/ApiKeys.tsx:54 | `toString(16).padStart(2, '0')` gives the high then the low hex digit of a byte |
| ApiKeys.DigitValue | src/pages/ApiKeys.tsx:54 | a hex digit's value is below 16 |
| ApiKeys.DigitRoundTrip | src/pages/ApiKeys.tsx:54 | reading back the hex digit of a value gives the value |
| ApiKeys.HexEncodeShape | src/pages/ApiKeys.tsx:54 | the digest's hex has two lowercase hex digits per byte |
| ApiKeys.HexRoundTrip | src/pages/ApiKeys.tsx:54 | decoding the hex pairs gives back the digest's bytes |
| ApiKeys.HexInjective | src/pages/ApiKeys.tsx:54 | different digests give different hex strings |
| ApiKeys.KeysPage.HandleCreateKey | src/pages/ApiKeys.tsx:80-148 | a blank name is refused; without a user the create fails before a key exists; otherwise the hash and prefix are inserted; on success the key is shown and the name reset, and on failure the name stays |
| ApiKeys.KeysPage.HandleDialogClose | src/pages/ApiKeys.tsx:158-163 | the dialog closes and forgets the key, the shown flag and the name |

## Left out

- Input and output are parameters, not modelled. This covers:
  - the database and storage calls, the RPCs and `fetch`;
  - logging, toasts and `console` output;
  - React's asynchronous batching of state updates: each callback is one atomic step on the
    state it closes over;
  - the effects that trigger fetches (`useEffect` in the hooks and in Chat.tsx).
- Strings are sequences of code points. JavaScript's `length`, `slice` and `charAt` count
  UTF-16 code units, so the 50-character title and the 12-character key prefix differ for text
  outside the Basic Multilingual Plane.
- `TextDecoder` is not modelled. Chunks arrive as already-decoded text.
- `JSON.parse` and the `choices[0].delta.content` lookup are one oracle, `Parser`.
- A read error in the middle of a stream is not modelled. Such an error would reach the
  `catch` of `sendMessage` with the partial reply shown.
- `stopGeneration` is destructured in Chat.tsx, but `useChat` does not return it, so it is
  left out.
- In the edge function:
  - the unused request fields (`moduleId`, `userId`, `conversationId`, `hasImage`), the
    Supabase client and the response-time logging are left out;
  - a body without `messages` throws a TypeError at index.ts:48. It ends in the same 500 as an
    unreadable body, but the model has no such request.
- In the composer:
  - the `catch` path of `handleSubmit` for a thrown upload error is left out;
  - storage file naming (`Date.now`, `Math.random`) is left out;
  - the recorder start and stop (`getUserMedia`, `MediaRecorder`) and the `btoa` and
    transcription calls are left out.
- The API-keys page:
  - the key-list query, `deleteKeyMutation` and `copyToClipboard` are left out;
  - `Math.random` draws are given already scaled to indices below 62.
- The realtime notification channel is modelled only by the insert it delivers (`RealtimeInsert`).
- In the module selector:
  - the per-item disabled flag and the "Active" badge are not modelled;
  - a missing `nameHi` is modelled as the empty string.
- UsageIndicator, Settings, SubscriptionModal and the sidebars are not part of this model.
- ChatSession.TitleSpec: the contract states that the title is the message itself for any
  message of 1 to 50 characters. It does not state the converse. A 53-character message that
  ends in "..." gets a title equal to itself, so the converse does not hold.
- ChatSession.Chat.SendMessage requires the reply id to be fresh in the list and different
  from the user message id. This is what `crypto.randomUUID` provides.
- Notifications.NotificationCenter: the source does not keep the unread counter in agreement
  with the list. `MarkAsRead` always decrements, `DeleteNotification` never does, and a
  realtime insert counts even an item that arrives already read. The model keeps this
  behaviour. `MarkAsReadKeepsCount`, `DeleteKeepsCount` and `InsertKeepsCount` say exactly
  when agreement survives.
- ChatSession.Chat.LoadConversation drops the stored attachments, because the source maps
  rows to id, role and content only.
