/** Canonical message content and the protocol families that own it. */
module Messages {
  import opened Utf16
  import opened JsonValue

  datatype Family =
    | AnthropicMessages
    | OpenAiChat
    | OpenAiResponses
    | GeminiGenerateContent
    | GeminiInteractions
    | VertexClaude
    | VertexGemini
    | BedrockClaude
    | AzureOpenAi
    | FoundryClaude

  /** `native_family`: hosting adapters share the representation of the wire below them. */
  function NativeFamily(f: Family): (r: Family)
    ensures r in {AnthropicMessages, OpenAiChat, OpenAiResponses, GeminiGenerateContent, GeminiInteractions}
    ensures r == AnthropicMessages <==> f in {AnthropicMessages, BedrockClaude, VertexClaude, FoundryClaude}
    ensures r == OpenAiChat <==> f in {OpenAiChat, AzureOpenAi}
    ensures r == GeminiGenerateContent <==> f in {GeminiGenerateContent, VertexGemini}
    ensures (r == OpenAiResponses <==> f == OpenAiResponses) && (r == GeminiInteractions <==> f == GeminiInteractions)
  {
    match f
    case BedrockClaude => AnthropicMessages
    case VertexClaude => AnthropicMessages
    case FoundryClaude => AnthropicMessages
    case AzureOpenAi => OpenAiChat
    case VertexGemini => GeminiGenerateContent
    case _ => f
  }

  /** Provider-owned content with its format tag. */
  datatype Extension = Extension(format: string, data: Json)

  datatype ContentBlock =
    | Native(native: Extension)
    | ProviderContent(protocol: Family, value: Json)
    | Text(text: string, thoughtSignature: Option<string>, citations: Option<Option<Json>>)
    | TextJsUtf16(text: string, units: seq<Unit>, thoughtSignature: Option<string>, citations: Option<Option<Json>>)
    | ToolUse(id: string, name: string, input: Json, providerId: Option<string>, caller: Option<Json>,
              toolsetName: Option<string>, thoughtSignature: Option<string>)
    | ToolResult(toolUseId: string, content: Json, isError: Option<bool>, blocks: Option<Json>,
                 cacheReference: Option<string>, toolsetName: Option<string>)
    | Thinking(text: string, signature: Option<string>)
    | RedactedThinking(data: string)
    | Image(source: Json)
    | Document(source: Json, title: Option<string>)

  datatype Role = User | Assistant | System

  datatype Message = Message(role: Role, content: seq<ContentBlock>, nativeOptions: seq<Extension>)

  datatype Result<+T> = Ok(value: T) | Invalid
}
