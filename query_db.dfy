/** `query_db` (src/query_db.rs): embed the prompt, ask the vector store for the nearest
    matches, and reshape the raw matches into `QueryMatch` values. */
module QueryDb {
  import opened Outcomes
  import opened Types
  import opened EnvLoad

  /** The store is always asked for five matches, with their metadata. */
  const TOP_K: nat := 5
  const INCLUDE_METADATA := true

  /** `QueryError`: which of the two remote legs failed. */
  datatype QueryError = OpenAI(openai: OpenAIError) | Pinecone(pinecone: PineconeError)

  /** The outcome of one run (or a panic) together with the remote calls it issued. */
  datatype QueryRun = QueryRun(outcome: Checked<Result<QueryResult, QueryError>>, calls: seq<Call>)

  /** The metadata holds a string under the key "text". */
  predicate HasTextString(metadata: Option<Json>)
  {
    metadata.Some? && metadata.value.Object? && "text" in metadata.value.fields &&
    metadata.value.fields["text"].Str?
  }

  /** `metadata.as_ref().and_then(|md| md.get("text")).and_then(|v| v.as_str()).unwrap_or("")`:
      `get` finds a key only in an object, `as_str` succeeds only on a string. */
  function MatchText(metadata: Option<Json>): (text: string)
    ensures HasTextString(metadata) ==> text == metadata.value.fields["text"].s
    ensures !HasTextString(metadata) ==> text == ""
  {
    match metadata
    case None => ""
    case Some(md) =>
      match md
      case Object(fields) =>
        if "text" in fields then
          match fields["text"]
          case Str(s) => s
          case _ => ""
        else ""
      case _ => ""
  }

  function ToQueryMatch(m: RawMatch): QueryMatch
  {
    QueryMatch(m.id, m.score, MatchText(m.metadata))
  }

  /** `matches.iter().map(..).collect()`. */
  function Reshape(raw: seq<RawMatch>): seq<QueryMatch>
  {
    if raw == [] then [] else [ToQueryMatch(raw[0])] + Reshape(raw[1..])
  }

  /** Reshaping keeps the length and the order; each id and score is copied and each
      text is the metadata's "text" string, or "" when there is none. */
  lemma {:induction false} ReshapeAt(raw: seq<RawMatch>)
    ensures |Reshape(raw)| == |raw|
    ensures forall i :: 0 <= i < |raw| ==>
      && Reshape(raw)[i].id == raw[i].id
      && Reshape(raw)[i].score == raw[i].score
      && Reshape(raw)[i].text == MatchText(raw[i].metadata)
  {
    if raw != [] {
      ReshapeAt(raw[1..]);
      forall i | 0 <= i < |raw|
        ensures Reshape(raw)[i] == ToQueryMatch(raw[i])
      {
        if i > 0 { assert raw[i] == raw[1..][i - 1]; }
      }
    }
  }

  /** Reshaping commutes with concatenation: no match is reordered, dropped or merged. */
  lemma {:induction false} ReshapeAppend(a: seq<RawMatch>, b: seq<RawMatch>)
    ensures Reshape(a + b) == Reshape(a) + Reshape(b)
  {
    if a == [] {
      assert a + b == b;
    } else {
      assert (a + b)[0] == a[0] && (a + b)[1..] == a[1..] + b;
      ReshapeAppend(a[1..], b);
    }
  }

  /** The embedding request for the prompt, a batch of one. */
  function PromptEmbedRequest(prompt: string, config: Config): EmbedRequest
  {
    EmbedRequest(config.openaiApiKey, [prompt])
  }

  /** The store query for the first embedding returned. */
  function NearestQuery(vector: Embedding, config: Config): StoreQuery
  {
    StoreQuery(config.pineconeApiKey, config.pineconeIndexName, vector, TOP_K, INCLUDE_METADATA)
  }

  /** `query_db(prompt, config)`: the embedding call, then (only if it succeeded and
      returned at least one embedding; `data[0]` panics otherwise) the store query. */
  function Query(prompt: string, config: Config, embed: EmbedService, store: StoreService): (run: QueryRun)
    // the prompt alone is embedded, with the OpenAI key
    ensures 1 <= |run.calls| <= 2 && run.calls[0] == EmbedCall(PromptEmbedRequest(prompt, config))
    // the store is queried only after a successful embedding, with fixed parameters and the first vector
    ensures |run.calls| == 2 <==>
      embed(PromptEmbedRequest(prompt, config)).Ok? && |embed(PromptEmbedRequest(prompt, config)).value| > 0
    ensures |run.calls| == 2 ==>
      run.calls[1] == StoreCall(NearestQuery(embed(PromptEmbedRequest(prompt, config)).value[0], config)) &&
      run.calls[1].query.topK == 5 && run.calls[1].query.includeMetadata
    // a failure is tagged with the leg that failed
    ensures embed(PromptEmbedRequest(prompt, config)).Err? ==>
      run.outcome == Value(Err(OpenAI(embed(PromptEmbedRequest(prompt, config)).error)))
    ensures |run.calls| == 2 && store(run.calls[1].query).Err? ==>
      run.outcome == Value(Err(Pinecone(store(run.calls[1].query).error)))
    ensures |run.calls| == 2 && store(run.calls[1].query).Ok? ==>
      run.outcome == Value(Ok(QueryResult(Reshape(store(run.calls[1].query).value))))
    ensures run.outcome.Panicked? <==> |run.calls| == 1 && embed(PromptEmbedRequest(prompt, config)).Ok?
  {
    var request := PromptEmbedRequest(prompt, config);
    match embed(request)
    case Err(e) => QueryRun(Value(Err(OpenAI(e))), [EmbedCall(request)])
    case Ok(data) =>
      if |data| == 0 then
        QueryRun(Panicked("index out of bounds: the len is 0 but the index is 0"), [EmbedCall(request)])
      else
        var query := NearestQuery(data[0], config);
        var calls := [EmbedCall(request), StoreCall(query)];
        match store(query)
        case Err(e) => QueryRun(Value(Err(Pinecone(e))), calls)
        case Ok(matches) => QueryRun(Value(Ok(QueryResult(Reshape(matches)))), calls)
  }
}
