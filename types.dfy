/** The records of `src/types.rs` and the shapes exchanged with the two remote
    services (the vector store and the embedding/chat model).
    An `f32` is only ever copied by the core, never computed on, so it is kept as its
    32-bit IEEE-754 pattern. */
module Types {
  import opened Outcomes

  type F32 = bv32
  type Embedding = seq<F32>

  /** `EmbeddingRecord`: the persisted form of one embedded chunk. */
  datatype EmbeddingRecord = EmbeddingRecord(id: string, values: Embedding, text: string)

  /** `QueryMatch` and `QueryResult`: the domain form of a store query's answer. */
  datatype QueryMatch = QueryMatch(id: string, score: F32, text: string)
  datatype QueryResult = QueryResult(matches: seq<QueryMatch>)

  /** `serde_json::Value`; numbers are kept as their source text. */
  datatype Json =
    | Null
    | Bool(b: bool)
    | Number(literal: string)
    | Str(s: string)
    | Array(items: seq<Json>)
    | Object(fields: map<string, Json>)

  /** `PineconeMatch`: one raw match as the store returns it. */
  datatype RawMatch = RawMatch(id: string, score: F32, metadata: Option<Json>)

  /** `PineconeError` and the embedding SDK's `OpenAIError`, both opaque here. */
  datatype PineconeError = Http(detail: string) | Api(detail: string) | IndexNotFound(name: string)
  datatype OpenAIError = OpenAIError(detail: string)

  /** The requests the core sends. Each remote service is a function from its request
      to its reply, supplied by the caller of the operation that uses it. */
  datatype EmbedRequest = EmbedRequest(apiKey: string, inputs: seq<string>)
  datatype StoreQuery = StoreQuery(apiKey: string, indexName: string, vector: Embedding,
                                   topK: nat, includeMetadata: bool)
  datatype ChatMessage = System(content: string) | User(content: string)
  datatype ChatRequest = ChatRequest(apiKey: string, messages: seq<ChatMessage>)

  /** A chat reply: its choices, each with an optional message content. */
  datatype ChatResponse = ChatResponse(choices: seq<Option<string>>)

  type EmbedService = EmbedRequest -> Result<seq<Embedding>, OpenAIError>
  type StoreService = StoreQuery -> Result<seq<RawMatch>, PineconeError>
  type ChatService = ChatRequest -> Result<ChatResponse, OpenAIError>

  /** One remote call, in the order the program issues them. */
  datatype Call = EmbedCall(embed: EmbedRequest) | StoreCall(query: StoreQuery) | ChatCall(chat: ChatRequest)
}
