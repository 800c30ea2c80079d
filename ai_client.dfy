/**
 * The chat classifier client (lib/ai/client.ts). The HTTP exchange with the provider
 * is external: `ModerateMessage` receives the provider's reply and maps it to the
 * result the client returns or the error it throws.
 */
module AiClient {
  import opened Js

  datatype Provider = OpenAI | Groq

  /** `ModerationResult`: the parsed JSON reply, fields as the model wrote them. */
  datatype ModerationResult = ModerationResult(isAppropriate: Value, reason: Value)

  /** What came back from `POST {baseURL}/chat/completions`. */
  datatype ClassifierReply =
    | FetchFailed                  // the request itself rejected
    | HttpError(status: int)       // `!response.ok`
    | Malformed                    // the body is not JSON, or has no `choices[0]`
    | Completion(content: string, parsed: ModerationParse)  // `choices[0].message.content` ("" when missing) and `JSON.parse` of it

  /** `JSON.parse` of the content: not JSON, the JSON `null`, or a value read as a `ModerationResult`. */
  datatype ModerationParse = NotJson | ParsedNull | Parsed(result: ModerationResult)

  /** A returned result, a returned `null`, or the error `moderateMessage` throws. */
  datatype ModerationOutcome = Returned(result: ModerationResult) | ReturnedNull | Threw(error: string)

  /** The request the client sends; the system prompt is fixed and not modelled. */
  datatype CompletionRequest = CompletionRequest(url: string, bearer: string, model: string, userContent: string)

  const OpenAIBaseUrl := "https://api.openai.com/v1"
  const GroqBaseUrl := "https://api.groq.com/openai/v1"
  const MissingKeyError :=
    "No AI API key found. Please set OPENAI_API_KEY or GROQ_API_KEY in environment variables."

  /** The result returned whenever the exchange fails: the message is allowed. */
  const FailOpenResult := ModerationResult(Bool(true), Str("Error en moderación, mensaje permitido"))

  function ModelName(provider: Provider): string
  {
    match provider
    case OpenAI => "gpt-3.5-turbo"
    case Groq => "llama-3.1-8b-instant"
  }

  class AIClient {
    const apiKey: string
    const baseURL: string
    const provider: Provider

    /** Reads the two environment variables (`""` when unset): OpenAI first, then Groq. */
    constructor (openaiKey: string, groqKey: string)
      ensures openaiKey != "" ==> apiKey == openaiKey && baseURL == OpenAIBaseUrl && provider == OpenAI
      ensures openaiKey == "" && groqKey != "" ==> apiKey == groqKey && baseURL == GroqBaseUrl && provider == Groq
      ensures openaiKey == "" && groqKey == "" ==> apiKey == "" && baseURL == "" && provider == OpenAI
    {
      if openaiKey != "" {
        apiKey, baseURL, provider := openaiKey, OpenAIBaseUrl, OpenAI;
      } else if groqKey != "" {
        apiKey, baseURL, provider := groqKey, GroqBaseUrl, Groq;
      } else {
        apiKey, baseURL, provider := "", "", OpenAI;
      }
    }

    /** `checkAPIKey` passes exactly when a key was configured. */
    predicate HasKey()
    {
      apiKey != ""
    }

    /** The chat-completions call `moderateMessage` makes for `content`. */
    function Request(content: string): (req: CompletionRequest)
      ensures req.model == (if provider == Groq then "llama-3.1-8b-instant" else "gpt-3.5-turbo")
      ensures req.bearer == apiKey && req.userContent == content
    {
      CompletionRequest(baseURL + "/chat/completions", apiKey, ModelName(provider), content)
    }

    /**
     * `moderateMessage(content)` given the provider's reply: throws when no key is
     * configured (the check runs before the `try`), returns the parsed reply unchecked
     * when there is one (`null` included), and otherwise fails open.
     */
    function ModerateMessage(content: string, reply: ClassifierReply): (o: ModerationOutcome)
      ensures o.Threw? <==> !HasKey()
      ensures o.Threw? ==> o.error == MissingKeyError
      ensures o.Returned? && o.result != FailOpenResult ==>
        reply.Completion? && reply.content != "" && reply.parsed == Parsed(o.result)
      ensures o.ReturnedNull? <==> HasKey() && reply.Completion? && reply.content != "" && reply.parsed.ParsedNull?
    {
      if !HasKey() then Threw(MissingKeyError)
      else match reply
        case Completion(text, Parsed(result)) =>
          if text != "" then Returned(result) else Returned(FailOpenResult)
        case Completion(text, ParsedNull) =>
          if text != "" then ReturnedNull else Returned(FailOpenResult)
        case _ => Returned(FailOpenResult)
    }
  }

  /** A configured client never turns a failed exchange into a rejection. */
  lemma FailOpen(client: AIClient, content: string, reply: ClassifierReply)
    requires client.HasKey()
    requires !reply.Completion? || reply.content == "" || reply.parsed.NotJson?
    ensures client.ModerateMessage(content, reply) == Returned(FailOpenResult)
    ensures Truthy(client.ModerateMessage(content, reply).result.isAppropriate)
  {
  }

  /** A successful exchange is passed through without validation. */
  lemma VerdictPassedThrough(client: AIClient, content: string, text: string, result: ModerationResult)
    requires client.HasKey() && text != ""
    ensures client.ModerateMessage(content, Completion(text, Parsed(result))) == Returned(result)
  {
  }
}
