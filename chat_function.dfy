/** The request handler of supabase/functions/chat/index.ts: CORS preflight, the API-key check,
    the system-prompt choice, the request sent to the AI gateway and the mapping of its answer
    to the response the browser gets. The request body, the environment, `fetch` and what the
    gateway answers are parameters. */
module ChatFunction {
  import opened Text
  import opened ChatSession
  import opened SseFramer

  type Header = (string, string)

  const CorsHeaders: seq<Header> := [
    ("Access-Control-Allow-Origin", "*"),
    ("Access-Control-Allow-Headers", "authorization, x-client-info, apikey, content-type")
  ]
  const JsonHeaders: seq<Header> := CorsHeaders + [("Content-Type", "application/json")]
  const StreamHeaders: seq<Header> := CorsHeaders + [("Content-Type", "text/event-stream")]

  const GatewayUrl: string := "https://ai.gateway.lovable.dev/v1/chat/completions"
  const GatewayModel: string := "google/gemini-2.5-flash"

  const MissingKeyMessage: string := "LOVABLE_API_KEY is not configured"
  const ServiceErrorMessage: string := "AI service error"
  const UnknownErrorMessage: string := "Unknown error"

  /** The prompt used when the client sends none. */
  const DefaultPrompt: string :=
    "You are Luvio AI, an advanced AI assistant created by Luvio.\n\n"
    + "IDENTITY: When asked who you are, say \"I am Luvio AI, created by Luvio.\"\n\n"
    + "RESPONSE STYLE:\n"
    + "- Be concise but helpful. 2-3 sentences for simple queries, more for complex topics.\n"
    + "- Support Hindi and English. Respond in the user's language.\n"
    + "- For images: Describe what you see clearly.\n"
    + "- Be accurate, friendly, and professional.\n\n"
    + "You are Luvio AI, not ChatGPT, Claude, Gemini or any other AI."

  /** A chat message as the gateway receives it. */
  datatype GatewayMessage = GatewayMessage(role: string, content: string)

  /** An incoming request: a preflight, or a POST whose JSON body was read (`messages` and
      `systemPrompt`) or failed to read, with the thrown error's message if it is an Error. */
  datatype Request =
    | Preflight
    | Post(messages: seq<GatewayMessage>, systemPrompt: Option<string>)
    | UnreadableBody(errorMessage: Option<string>)

  /** The POST to the gateway. */
  datatype GatewayRequest = GatewayRequest(url: string, authorization: string, model: string,
                                           messages: seq<GatewayMessage>, stream: bool)

  /** What `fetch` did: threw, or answered with a status and (when ok) a body stream. */
  datatype GatewayReply = FetchThrew(message: Option<string>) | GatewayAnswer(ok: bool, status: int, body: seq<string>)

  datatype Body = NoBody | ErrorJson(error: string) | EventStream(chunks: seq<string>)

  datatype Response = Response(status: int, headers: seq<Header>, body: Body)

  /** `systemPrompt || defaultPrompt`. */
  function FinalPrompt(systemPrompt: Option<string>): (p: string)
    ensures systemPrompt.Some? && systemPrompt.value != "" ==> p == systemPrompt.value
    ensures !(systemPrompt.Some? && systemPrompt.value != "") ==> p == DefaultPrompt
  {
    if systemPrompt.Some? && systemPrompt.value != "" then systemPrompt.value else DefaultPrompt
  }

  /** The gateway's messages: the system prompt first, then the client's messages in order. */
  function GatewayMessages(prompt: string, messages: seq<GatewayMessage>): (r: seq<GatewayMessage>)
    ensures |r| == |messages| + 1 && r[0] == GatewayMessage("system", prompt) && r[1..] == messages
  {
    [GatewayMessage("system", prompt)] + messages
  }

  function ErrorResponse(status: int, message: string): Response {
    Response(status, JsonHeaders, ErrorJson(message))
  }

  /** The response to a gateway answer. */
  function Relay(reply: GatewayReply): Response {
    match reply
    case FetchThrew(m) => ErrorResponse(500, if m.Some? then m.value else UnknownErrorMessage)
    case GatewayAnswer(ok, status, body) =>
      if !ok then
        if status == 429 then ErrorResponse(429, RateLimitMessage)
        else if status == 402 then ErrorResponse(402, CreditsMessage)
        else ErrorResponse(500, ServiceErrorMessage)
      else Response(200, StreamHeaders, EventStream(body))
  }

  /** The handler: a preflight gets an empty response with the CORS headers; an unreadable body
      or a missing key ends in a 500 with the error's message before the gateway is called;
      otherwise the gateway gets the chosen prompt and the client's messages, streamed, and its
      answer is relayed. Logging and the unused Supabase client are left out. */
  method Handle(req: Request, apiKey: Option<string>, gateway: GatewayReply)
    returns (resp: Response, upstream: Option<GatewayRequest>)
    ensures req.Preflight? ==> resp == Response(200, CorsHeaders, NoBody) && upstream.None?
    ensures req.UnreadableBody? ==>
              upstream.None?
              && resp == ErrorResponse(500, if req.errorMessage.Some? then req.errorMessage.value
                                            else UnknownErrorMessage)
    ensures req.Post? && NullIfEmpty(apiKey).None? ==>
              upstream.None? && resp == ErrorResponse(500, MissingKeyMessage)
    ensures req.Post? && NullIfEmpty(apiKey).Some? ==>
              && upstream == Some(GatewayRequest(GatewayUrl, "Bearer " + apiKey.value, GatewayModel,
                                                 GatewayMessages(FinalPrompt(req.systemPrompt), req.messages),
                                                 true))
              && resp == Relay(gateway)
  {
    if req.Preflight? {
      return Response(200, CorsHeaders, NoBody), None;
    }
    if req.UnreadableBody? {
      return ErrorResponse(500, if req.errorMessage.Some? then req.errorMessage.value else UnknownErrorMessage), None;
    }
    if NullIfEmpty(apiKey).None? {
      return ErrorResponse(500, MissingKeyMessage), None;
    }
    var prompt := FinalPrompt(req.systemPrompt);
    upstream := Some(GatewayRequest(GatewayUrl, "Bearer " + apiKey.value, GatewayModel,
                                    GatewayMessages(prompt, req.messages), true));
    resp := Relay(gateway);
  }

  /** Only the two limit statuses pass through; every other failure is a 500, and a success is
      a 200 event stream holding the gateway's body unchanged. All carry the CORS headers. */
  lemma RelaySpec(reply: GatewayReply)
    ensures Relay(reply).status in {200, 402, 429, 500}
    ensures Relay(reply).status == 429 <==> reply.GatewayAnswer? && !reply.ok && reply.status == 429
    ensures Relay(reply).status == 402 <==> reply.GatewayAnswer? && !reply.ok && reply.status == 402
    ensures Relay(reply).status == 200 <==> reply.GatewayAnswer? && reply.ok
    ensures Relay(reply).status == 200 ==> Relay(reply).body == EventStream(reply.body)
    ensures Relay(reply).headers[..|CorsHeaders|] == CorsHeaders
  {
    assert JsonHeaders[..|CorsHeaders|] == CorsHeaders;
    assert StreamHeaders[..|CorsHeaders|] == CorsHeaders;
  }

  /** How the browser's `fetch` sees a response of this function: ok for 2xx, the `error`
      field of a JSON error body, and a body stream whenever there is a body (the chunks of an
      error body are never read by the hook, so they are left empty). */
  function AsClientReply(r: Response): Reply {
    Answered(200 <= r.status < 300, r.status,
             if r.body.ErrorJson? then Some(r.body.error) else None,
             match r.body
             case NoBody => None
             case ErrorJson(_) => Some([])
             case EventStream(chunks) => Some(chunks))
  }

  /** The two halves agree: for every gateway answer the chat hook reports the same limit
      messages the function sends, a failure as a non-empty error, and on success streams the
      gateway's body itself. */
  lemma ClientSeesRelay(reply: GatewayReply, parse: Parser)
    ensures reply.GatewayAnswer? && !reply.ok && reply.status == 429 ==>
              ResponseError(AsClientReply(Relay(reply))) == Some(RateLimitMessage)
    ensures reply.GatewayAnswer? && !reply.ok && reply.status == 402 ==>
              ResponseError(AsClientReply(Relay(reply))) == Some(CreditsMessage)
    ensures reply.GatewayAnswer? && !reply.ok && reply.status != 429 && reply.status != 402 ==>
              ResponseError(AsClientReply(Relay(reply))) == Some(ServiceErrorMessage)
    ensures reply.FetchThrew? && reply.message.Some? && reply.message.value != "" ==>
              ResponseError(AsClientReply(Relay(reply))) == reply.message
    ensures reply.GatewayAnswer? && reply.ok ==>
              ResponseError(AsClientReply(Relay(reply))).None?
              && AnswerText(AsClientReply(Relay(reply)), parse) == StreamContent(reply.body, parse)
  {
  }
}
