/** `Config::from_env` (src/env_load.rs): the process configuration read from the
    environment, which is modelled as a map from variable name to value. */
module EnvLoad {
  import opened Outcomes
  import opened Decimal

  const OPENAI_API_KEY := "OPENAI_API_KEY"
  const PINECONE_API_KEY := "PINECONE_API_KEY"
  const PINECONE_INDEX_NAME := "PINECONE_INDEX_NAME"
  const PINECONE_INDEX_DIMENSION := "PINECONE_INDEX_DIMENSION"
  const PINECONE_INDEX_METRIC := "PINECONE_INDEX_METRIC"
  const PINECONE_INDEX_CLOUD := "PINECONE_INDEX_CLOUD"
  const PINECONE_INDEX_REGION := "PINECONE_INDEX_REGION"
  const DEFAULT_METRIC := "cosine"

  /** The required variables, in the order `from_env` looks them up. */
  const REQUIRED: seq<string> := [OPENAI_API_KEY, PINECONE_API_KEY, PINECONE_INDEX_NAME,
                                  PINECONE_INDEX_DIMENSION, PINECONE_INDEX_CLOUD,
                                  PINECONE_INDEX_REGION]
  const DIMENSION_POSITION := 3

  type U32 = n: nat | n < U32_LIMIT

  datatype Environment = Environment(vars: map<string, string>)

  datatype EnvError = Missing(name: string) | Parse(name: string, detail: string)

  datatype Config = Config(
    openaiApiKey: string,
    pineconeApiKey: string,
    pineconeIndexName: string,
    pineconeIndexDimension: U32,
    pineconeIndexMetric: string,
    pineconeIndexCloud: string,
    pineconeIndexRegion: string)

  /** `env::var(name).map_err(|_| EnvError::Missing(name))`. */
  function Var(env: Environment, name: string): (r: Result<string, EnvError>)
  {
    if name in env.vars then Ok(env.vars[name]) else Err(Missing(name))
  }

  /** The dimension's text parsed as `u32`, a failure tagged with the variable's name
      and the parse error's message. */
  function ParseDimension(text: string): (r: Result<U32, EnvError>)
  {
    match ParseU32(text)
    case Ok(n) => Ok(n)
    case Err(kind) => Err(Parse(PINECONE_INDEX_DIMENSION, IntErrorMessage(kind)))
  }

  /** Every required variable before position `k` of the lookup order is set. */
  predicate PresentBefore(env: Environment, k: nat)
    requires k <= |REQUIRED|
  {
    forall j :: 0 <= j < k ==> REQUIRED[j] in env.vars
  }

  predicate DimensionParses(env: Environment)
  {
    PINECONE_INDEX_DIMENSION in env.vars && ParseU32(env.vars[PINECONE_INDEX_DIMENSION]).Ok?
  }

  function FromEnv(env: Environment): (r: Result<Config, EnvError>)
    // on success every field is the variable's value, unchanged, and the metric falls
    // back to "cosine"
    ensures r.Ok? ==>
      && OPENAI_API_KEY in env.vars && r.value.openaiApiKey == env.vars[OPENAI_API_KEY]
      && PINECONE_API_KEY in env.vars && r.value.pineconeApiKey == env.vars[PINECONE_API_KEY]
      && PINECONE_INDEX_NAME in env.vars && r.value.pineconeIndexName == env.vars[PINECONE_INDEX_NAME]
      && DimensionParses(env)
      && r.value.pineconeIndexDimension == ParseU32(env.vars[PINECONE_INDEX_DIMENSION]).value
      && PINECONE_INDEX_CLOUD in env.vars && r.value.pineconeIndexCloud == env.vars[PINECONE_INDEX_CLOUD]
      && PINECONE_INDEX_REGION in env.vars && r.value.pineconeIndexRegion == env.vars[PINECONE_INDEX_REGION]
      && r.value.pineconeIndexMetric ==
           (if PINECONE_INDEX_METRIC in env.vars then env.vars[PINECONE_INDEX_METRIC] else DEFAULT_METRIC)
    // every failure names one of the required variables; only the dimension can fail to parse
    ensures r.Err? && r.error.Missing? ==> r.error.name in REQUIRED && r.error.name !in env.vars
    ensures r.Err? && r.error.Parse? ==> r.error.name == PINECONE_INDEX_DIMENSION && !DimensionParses(env)
  {
    var openaiApiKey :- Var(env, OPENAI_API_KEY);
    var pineconeApiKey :- Var(env, PINECONE_API_KEY);
    var pineconeIndexName :- Var(env, PINECONE_INDEX_NAME);
    var dimensionText :- Var(env, PINECONE_INDEX_DIMENSION);
    var pineconeIndexDimension :- ParseDimension(dimensionText);
    var pineconeIndexMetric :=
      if PINECONE_INDEX_METRIC in env.vars then env.vars[PINECONE_INDEX_METRIC] else DEFAULT_METRIC;
    var pineconeIndexCloud :- Var(env, PINECONE_INDEX_CLOUD);
    var pineconeIndexRegion :- Var(env, PINECONE_INDEX_REGION);
    Ok(Config(openaiApiKey, pineconeApiKey, pineconeIndexName, pineconeIndexDimension,
              pineconeIndexMetric, pineconeIndexCloud, pineconeIndexRegion))
  }

  /** The optional metric never decides success or failure: removing it changes
      nothing but the metric, which then is "cosine". */
  lemma MetricNeverFails(env: Environment)
    ensures var without := Environment(env.vars - {PINECONE_INDEX_METRIC});
      && FromEnv(without).Ok? == FromEnv(env).Ok?
      && (FromEnv(env).Err? ==> FromEnv(without) == FromEnv(env))
      && (FromEnv(without).Ok? ==>
            && FromEnv(without).value.pineconeIndexMetric == DEFAULT_METRIC
            && FromEnv(without).value == FromEnv(env).value.(pineconeIndexMetric := DEFAULT_METRIC))
  {
    var without := Environment(env.vars - {PINECONE_INDEX_METRIC});
    assert forall j :: 0 <= j < |REQUIRED| ==> REQUIRED[j] != PINECONE_INDEX_METRIC;
    assert forall j :: 0 <= j < |REQUIRED| ==> (REQUIRED[j] in without.vars <==> REQUIRED[j] in env.vars);
  }

  /** Success exactly when every required variable is set and the dimension parses. */
  lemma FromEnvSucceedsIff(env: Environment)
    ensures FromEnv(env).Ok? <==> PresentBefore(env, |REQUIRED|) && DimensionParses(env)
  {
    if PresentBefore(env, |REQUIRED|) {
      assert REQUIRED[0] in env.vars && REQUIRED[1] in env.vars && REQUIRED[2] in env.vars;
      assert REQUIRED[3] in env.vars && REQUIRED[4] in env.vars && REQUIRED[5] in env.vars;
    }
  }

  /** The variable reported missing is the first absent one in lookup order, except
      that an unparsable dimension is reported before a missing cloud or region. */
  lemma FromEnvReportsFirstMissing(env: Environment, k: nat)
    requires k < |REQUIRED| && PresentBefore(env, k) && REQUIRED[k] !in env.vars
    requires k > DIMENSION_POSITION ==> DimensionParses(env)
    ensures FromEnv(env) == Err(Missing(REQUIRED[k]))
  {
    if k > 0 { assert REQUIRED[0] in env.vars; }
    if k > 1 { assert REQUIRED[1] in env.vars; }
    if k > 2 { assert REQUIRED[2] in env.vars; }
    if k > 3 { assert REQUIRED[3] in env.vars; }
    if k > 4 { assert REQUIRED[4] in env.vars; }
  }

  /** A set but unparsable dimension fails with `Parse`, carrying the parse error's
      message, whatever the cloud and region variables hold. */
  lemma FromEnvParseError(env: Environment)
    requires PresentBefore(env, DIMENSION_POSITION + 1)
    requires PINECONE_INDEX_DIMENSION in env.vars
    requires ParseU32(env.vars[PINECONE_INDEX_DIMENSION]).Err?
    ensures FromEnv(env) ==
      Err(Parse(PINECONE_INDEX_DIMENSION, IntErrorMessage(ParseU32(env.vars[PINECONE_INDEX_DIMENSION]).error)))
  {
    assert REQUIRED[0] in env.vars && REQUIRED[1] in env.vars && REQUIRED[2] in env.vars;
  }
}
