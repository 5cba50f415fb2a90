/** The language-model provider as api/chatbot.py sees it: whether a key is
    configured, and what the chat-completion and embedding endpoints answer.
    The endpoints are parameters: each is a fixed function of the request it
    is sent. */
module Provider {
  import opened Wrappers
  import opened LocalMatcher

  /** One chat message, `{"role": role, "content": content}`. */
  datatype Message = Message(role: string, content: string)

  /** The arguments of `client.chat.completions.create`. */
  datatype Request = Request(model: string, messages: seq<Message>, temperature: real, maxTokens: nat, stream: bool)

  /** What `response.choices[0].message.content` holds after a blocking
      call: a text, `None`, or the call (or creating the client) raised. */
  datatype Completion = Text(content: string) | NullContent | Failure

  /** A streaming call: the `delta.content` of each chunk delivered (None
      for a chunk without content), and whether the stream (or opening it)
      raised after those chunks. */
  datatype ProviderStream = ProviderStream(deltas: seq<Option<string>>, fails: bool)

  /** `OPENAI_API_KEY` is set or not (api/config.py is not part of this
      model); the blocking and streaming chat endpoints; and the embedding
      endpoint, None meaning that `_get_embedding` raises for that text. */
  datatype Provider = Provider(
    hasKey: bool,
    complete: Request -> Completion,
    openStream: Request -> ProviderStream,
    embed: string -> Option<Vector>)

  /** The model every chat request names. */
  const ChatModel: string := "gpt-4o-mini"
}
