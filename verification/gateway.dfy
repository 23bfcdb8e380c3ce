/** The grammar-correction and notification gateway of
    lib/services/apiService.ts. The HTTP exchange is split in two: the model
    returns the request it would send, and takes the provider's reply (or a
    transport failure) as an input. */
module Gateway {
  import opened Wrappers
  import opened Text
  import opened Config

  const OpenAIChatUrl := "https://api.openai.com/v1/chat/completions"
  const ChatSuffix := "/chat/completions"
  const GenerateSuffix := "/generate"
  const SystemPrompt := "Please correct the grammar and spelling of the following text while preserving the original meaning. Do not change the tone or intent. Return only the corrected text, no additional commentary."
  const CorrectionTimeoutMs := 30000
  const NotificationTimeoutMs := 10000
  const NotConfigured := "API not configured"
  const Unavailable := "Correction service unavailable"

  datatype Role = System | User
  datatype ChatMessage = ChatMessage(role: Role, content: string)
  datatype ChatRequest = ChatRequest(model: string, messages: seq<ChatMessage>, maxTokens: string, temperature: string)

  /** A POST to the provider: where, with which bearer credential, what. */
  datatype CorrectionPost = CorrectionPost(url: string, authorization: string, body: ChatRequest, timeoutMs: int)

  /** The fields of a provider reply the extraction looks at:
      `choices[0].message.content`, `text` and `corrected`, each present as
      a string or absent. */
  datatype ChatReply = ChatReply(choiceContent: Option<string>, text: Option<string>, corrected: Option<string>)

  datatype Transport = Delivered(reply: ChatReply) | TransportFailed

  /** `CorrectionResponse`: the text to show and an optional error marker. */
  datatype Correction = Correction(corrected: string, error: Option<string>)

  datatype Attempt = Attempt(result: Correction, sent: Option<CorrectionPost>)

  predicate HasEndpointSuffix(url: string) {
    EndsWith(url, ChatSuffix) || EndsWith(url, GenerateSuffix)
  }

  /** The custom provider's URL: kept when it already names an endpoint,
      otherwise extended with `/chat/completions`. The result always names an
      endpoint and always starts with the configured URL. */
  function NormalizeEndpoint(url: string): (r: string)
    ensures HasEndpointSuffix(r)
    ensures HasEndpointSuffix(url) <==> r == url
    ensures !HasEndpointSuffix(url) ==> r == url + ChatSuffix
    ensures StartsWith(r, url)
  {
    if HasEndpointSuffix(url) then url
    else
      var r := url + ChatSuffix;
      assert r[|r| - |ChatSuffix|..] == ChatSuffix;
      assert r[..|url|] == url;
      r
  }

  /** Normalising an already normalised URL changes nothing. */
  lemma NormalizeIdempotent(url: string)
    ensures NormalizeEndpoint(NormalizeEndpoint(url)) == NormalizeEndpoint(url)
  {
  }

  /** The URL actually posted to: the fixed OpenAI endpoint for the OpenAI
      provider, whatever URL is configured, else the normalised custom URL. */
  function Endpoint(cfg: ApiConfig): (u: string)
    ensures cfg.provider == OpenAI ==> u == OpenAIChatUrl
    ensures cfg.provider == Custom ==> u == NormalizeEndpoint(cfg.url)
  {
    if cfg.provider == OpenAI then OpenAIChatUrl else NormalizeEndpoint(cfg.url)
  }

  /** `buildRequestData`: exactly two messages, the fixed instruction first
      and the user's text verbatim second, with model, token limit and
      temperature taken from the configuration. */
  function BuildRequest(content: string, cfg: ApiConfig): (r: ChatRequest)
    ensures |r.messages| == 2
    ensures r.messages[0] == ChatMessage(System, SystemPrompt)
    ensures r.messages[1] == ChatMessage(User, content)
    ensures r.model == cfg.model && r.maxTokens == cfg.maxTokens && r.temperature == cfg.temperature
  {
    ChatRequest(cfg.model, [ChatMessage(System, SystemPrompt), ChatMessage(User, content)],
                cfg.maxTokens, cfg.temperature)
  }

  /** A present field, trimmed; an absent one counts as empty. */
  function TrimmedField(f: Option<string>): (r: string)
    ensures Trimmed(r)
  {
    if f.Some? then Trim(f.value) else ""
  }

  /** `extractCorrectedText`: for OpenAI the trimmed first choice, failing
      when there is none; for a custom provider the first non-empty of the
      trimmed choice, `text` and `corrected`, possibly empty, never failing.
      Whatever it returns is trimmed. */
  function Extract(reply: ChatReply, provider: Provider): (r: Option<string>)
    ensures provider == OpenAI ==> (r.Some? <==> reply.choiceContent.Some?)
    ensures provider == OpenAI && r.Some? ==> r.value == Trim(reply.choiceContent.value)
    ensures provider == Custom ==> r.Some?
    ensures r.Some? ==> Trimmed(r.value)
  {
    if provider == OpenAI then
      if reply.choiceContent.Some? then Some(Trim(reply.choiceContent.value)) else None
    else
      var choice, text, corrected :=
        TrimmedField(reply.choiceContent), TrimmedField(reply.text), TrimmedField(reply.corrected);
      Some(if choice != "" then choice else if text != "" then text else corrected)
  }

  /** The custom fallback order: the choice wins when it trims to something,
      else `text`, else `corrected`; when all trim to nothing the extraction
      succeeds with the empty string. */
  lemma CustomFallbackOrder(reply: ChatReply)
    ensures var r := Extract(reply, Custom).value;
      && (TrimmedField(reply.choiceContent) != "" ==> r == TrimmedField(reply.choiceContent))
      && (TrimmedField(reply.choiceContent) == "" && TrimmedField(reply.text) != "" ==>
            r == TrimmedField(reply.text))
      && (TrimmedField(reply.choiceContent) == "" && TrimmedField(reply.text) == "" ==>
            r == TrimmedField(reply.corrected))
  {
  }

  /** `correctGrammar`: with no configuration, the input back with
      `API not configured` and no request; otherwise one request to
      `Endpoint` carrying `BuildRequest`, and either the extracted text with
      no error or, on transport or extraction failure, the input back with
      `Correction service unavailable`. It never fails, and whenever it
      reports an error the text is the input unchanged. */
  function CorrectGrammar(content: string, cfg: Option<ApiConfig>, transport: Transport): (a: Attempt)
    ensures cfg.None? ==> a == Attempt(Correction(content, Some(NotConfigured)), None)
    ensures cfg.Some? ==> a.sent == Some(CorrectionPost(Endpoint(cfg.value), BearerOf(cfg.value.apiKey),
                                                         BuildRequest(content, cfg.value), CorrectionTimeoutMs))
    ensures a.result.error.Some? ==> a.result.corrected == content
    ensures a.result.error.None? <==>
      cfg.Some? && transport.Delivered? && Extract(transport.reply, cfg.value.provider).Some?
    ensures a.result.error.None? ==> a.result.corrected == Extract(transport.reply, cfg.value.provider).value
    ensures cfg.Some? && a.result.error.Some? ==> a.result.error == Some(Unavailable)
  {
    if cfg.None? then Attempt(Correction(content, Some(NotConfigured)), None)
    else
      var c := cfg.value;
      var post := CorrectionPost(Endpoint(c), BearerOf(c.apiKey), BuildRequest(content, c), CorrectionTimeoutMs);
      if transport.TransportFailed? then Attempt(Correction(content, Some(Unavailable)), Some(post))
      else
        match Extract(transport.reply, c.provider)
        case None => Attempt(Correction(content, Some(Unavailable)), Some(post))
        case Some(text) => Attempt(Correction(text, None), Some(post))
  }

  function BearerOf(key: string): string {
    "Bearer " + key
  }

  /** A custom provider that answers with nothing usable still counts as a
      success: the text is empty and no error is reported. */
  lemma EmptyCustomReplySucceeds(content: string, cfg: ApiConfig)
    requires cfg.provider == Custom
    ensures CorrectGrammar(content, Some(cfg), Delivered(ChatReply(None, None, None))).result
      == Correction("", None)
  {
  }

  datatype NotifyPost = NotifyPost(url: string, title: string, message: string, priority: string,
                                   tags: seq<string>, timeoutMs: int)

  /** `sendNotification`: no request without a (non-empty) URL, otherwise one
      high-priority post to it. Its outcome is not part of the result: a
      failed post is swallowed, so no caller can observe it. */
  function SendNotification(ntfyUrl: Option<string>, title: string, message: string): (p: Option<NotifyPost>)
    ensures p.None? <==> ntfyUrl.None? || ntfyUrl.value == ""
    ensures p.Some? ==> p.value.url == ntfyUrl.value && p.value.title == title && p.value.message == message
    ensures p.Some? ==> p.value.priority == "high" && p.value.tags == ["question"] && p.value.timeoutMs == NotificationTimeoutMs
  {
    if ntfyUrl.None? || ntfyUrl.value == "" then None
    else Some(NotifyPost(ntfyUrl.value, title, message, "high", ["question"], NotificationTimeoutMs))
  }
}
