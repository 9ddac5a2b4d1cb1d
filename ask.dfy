/** The `ask` command (src/bin/ask.rs): trim the prompt read from standard input,
    retrieve matches, assemble a bounded context from them, wrap context and question in
    a fixed two-message template, and print the trimmed first answer of the chat model.

    `MAX_CONTEXT_CHARS` (a byte budget) and the `{:.4}` rendering of a score are
    parameters: `maxContextBytes` and `formatScore`. */
module Ask {
  import opened Outcomes
  import opened Types
  import opened Strings
  import opened Decimal
  import opened EnvLoad
  import QueryDb

  // ------------------------------------------------------------------ context

  /** One tagged document block. */
  function Block(index: nat, score: string, text: string): string
  {
    "<document>\n<index>" + DecimalString(index) + "</index>\n<score>" + score +
    "</score>\n<text>" + text + "</text>\n</document>"
  }

  predicate Kept(m: QueryMatch)
  {
    Trim(m.text) != []
  }

  /** The sections for the first `n` matches: each match that `keep` selects is rendered
      with its 1-based position; the others give nothing. */
  function Sections(matches: seq<QueryMatch>, n: nat, keep: QueryMatch -> bool,
                    render: (nat, QueryMatch) -> string): seq<string>
    requires n <= |matches|
  {
    if n == 0 then []
    else
      Sections(matches, n - 1, keep, render) +
        (if keep(matches[n - 1]) then [render(n, matches[n - 1])] else [])
  }

  /** The blocks for the first `n` matches: a match whose trimmed text is empty gives
      none; the others give a block with their 1-based position and trimmed text. */
  function BlocksUpTo(matches: seq<QueryMatch>, n: nat, formatScore: F32 -> string): seq<string>
    requires n <= |matches|
  {
    Sections(matches, n, Kept, (i: nat, m: QueryMatch) => Block(i, formatScore(m.score), Trim(m.text)))
  }

  /** The 1-based positions, among the first `n` matches, of those that `keep` selects. */
  function Positions(matches: seq<QueryMatch>, n: nat, keep: QueryMatch -> bool): seq<nat>
    requires n <= |matches|
  {
    if n == 0 then []
    else Positions(matches, n - 1, keep) + (if keep(matches[n - 1]) then [n] else [])
  }

  /** The 0-based indices, among the first `n` matches, of those that `keep` selects. */
  function Indices(matches: seq<QueryMatch>, n: nat, keep: QueryMatch -> bool): (r: set<nat>)
    requires n <= |matches|
    ensures forall i: nat :: i in r <==> i < n && keep(matches[i])
  {
    if n == 0 then {}
    else Indices(matches, n - 1, keep) + (if keep(matches[n - 1]) then {n - 1} else {})
  }

  /** The 1-based positions, among the first `n` matches, of those that give a block. */
  function KeptPositions(matches: seq<QueryMatch>, n: nat): seq<nat>
    requires n <= |matches|
  {
    Positions(matches, n, Kept)
  }

  function Envelope(sections: seq<string>): string
  {
    "<context>\n" + Join(sections, "\n") + "\n</context>"
  }

  /** The context before the byte budget is applied. */
  function RawContext(matches: seq<QueryMatch>, formatScore: F32 -> string): string
  {
    Envelope(BlocksUpTo(matches, |matches|, formatScore))
  }

  /** Over budget, the context is cut to exactly `maxBytes` bytes, which panics when that
      offset falls inside a multi-byte character; within budget it is left alone. */
  function Truncate(raw: string, maxBytes: nat): (r: Checked<string>)
    ensures r.Value? ==> r.value <= raw && ByteLen(r.value) <= maxBytes
    ensures ByteLen(raw) <= maxBytes ==> r == Value(raw)
    ensures ByteLen(raw) > maxBytes && r.Value? ==> ByteLen(r.value) == maxBytes
    ensures r.Panicked? <==> ByteLen(raw) > maxBytes && !IsCharBoundary(raw, maxBytes)
  {
    if ByteLen(raw) > maxBytes then SliceToByte(raw, maxBytes) else Value(raw)
  }

  /** What `build_context` returns, or its panic. */
  function ContextOf(matches: seq<QueryMatch>, formatScore: F32 -> string, maxBytes: nat): Checked<string>
  {
    Truncate(RawContext(matches, formatScore), maxBytes)
  }

  /** `build_context`: a loop over the matches that skips empty texts and collects the
      blocks, then the envelope and the byte budget. */
  method BuildContext(result: QueryResult, formatScore: F32 -> string, maxContextBytes: nat)
    returns (context: Checked<string>)
    ensures context == ContextOf(result.matches, formatScore, maxContextBytes)
  {
    var sections: seq<string> := [];
    for i := 0 to |result.matches|
      invariant sections == BlocksUpTo(result.matches, i, formatScore)
    {
      var m := result.matches[i];
      var text := Trim(m.text);
      if text == [] {
        continue;
      }
      sections := sections + [Block(i + 1, formatScore(m.score), text)];
    }
    var contextRaw := "<context>\n" + Join(sections, "\n") + "\n</context>";
    if ByteLen(contextRaw) > maxContextBytes {
      context := SliceToByte(contextRaw, maxContextBytes);
    } else {
      context := Value(contextRaw);
    }
  }

  /** The blocks are exactly those of the kept matches, in input order: block `j` is
      built from the match at 1-based position `KeptPositions[j]`, with that position as
      its index, its rendered score and its trimmed text. */
  lemma BlocksAreKeptMatches(matches: seq<QueryMatch>, n: nat, formatScore: F32 -> string)
    requires n <= |matches|
    ensures |BlocksUpTo(matches, n, formatScore)| == |KeptPositions(matches, n)|
    ensures forall j :: 0 <= j < |KeptPositions(matches, n)| ==>
      && 1 <= KeptPositions(matches, n)[j] <= n
      && BlocksUpTo(matches, n, formatScore)[j] ==
           Block(KeptPositions(matches, n)[j], formatScore(matches[KeptPositions(matches, n)[j] - 1].score),
                 Trim(matches[KeptPositions(matches, n)[j] - 1].text))
  {
    var render := (i: nat, m: QueryMatch) => Block(i, formatScore(m.score), Trim(m.text));
    SectionsAtPositions(matches, n, Kept, render);
  }

  /** Section `j` is the rendering of the match at the `j`-th selected position. */
  lemma {:induction false} SectionsAtPositions(matches: seq<QueryMatch>, n: nat, keep: QueryMatch -> bool,
                                               render: (nat, QueryMatch) -> string)
    requires n <= |matches|
    ensures |Sections(matches, n, keep, render)| == |Positions(matches, n, keep)|
    ensures forall j :: 0 <= j < |Positions(matches, n, keep)| ==>
      && 1 <= Positions(matches, n, keep)[j] <= n
      && Sections(matches, n, keep, render)[j] ==
           render(Positions(matches, n, keep)[j], matches[Positions(matches, n, keep)[j] - 1])
  {
    if n > 0 {
      SectionsAtPositions(matches, n - 1, keep, render);
      var sections := Sections(matches, n, keep, render);
      var earlierSections := Sections(matches, n - 1, keep, render);
      var positions := Positions(matches, n, keep);
      var earlier := Positions(matches, n - 1, keep);
      forall j | 0 <= j < |positions|
        ensures 1 <= positions[j] <= n
        ensures sections[j] == render(positions[j], matches[positions[j] - 1])
      {
        if j < |earlier| {
          assert sections[j] == earlierSections[j] && positions[j] == earlier[j];
        }
      }
    }
  }

  /** The positions strictly increase (no reordering, no repetition), and a position
      appears exactly when the match there has non-empty trimmed text. */
  lemma KeptPositionsExact(matches: seq<QueryMatch>, n: nat)
    requires n <= |matches|
    ensures var positions := KeptPositions(matches, n);
      && (forall j, l :: 0 <= j < l < |positions| ==> positions[j] < positions[l])
      && (forall j :: 0 <= j < |positions| ==> 1 <= positions[j] <= n && Kept(matches[positions[j] - 1]))
      && (forall i :: 0 <= i < n && Kept(matches[i]) ==> i + 1 in positions)
  {
    PositionsIncrease(matches, n, Kept);
    PositionsSelected(matches, n, Kept);
    PositionsComplete(matches, n, Kept);
  }

  lemma {:induction false} PositionsIncrease(matches: seq<QueryMatch>, n: nat, keep: QueryMatch -> bool)
    requires n <= |matches|
    ensures forall j :: 0 <= j < |Positions(matches, n, keep)| ==> 1 <= Positions(matches, n, keep)[j] <= n
    ensures forall j, l :: 0 <= j < l < |Positions(matches, n, keep)| ==>
      Positions(matches, n, keep)[j] < Positions(matches, n, keep)[l]
  {
    if n > 0 {
      PositionsIncrease(matches, n - 1, keep);
      var earlier := Positions(matches, n - 1, keep);
      var positions := Positions(matches, n, keep);
      assert forall j :: 0 <= j < |earlier| ==> positions[j] == earlier[j];
      assert |positions| > |earlier| ==> positions[|earlier|] == n;
    }
  }

  lemma {:induction false} PositionsSelected(matches: seq<QueryMatch>, n: nat, keep: QueryMatch -> bool)
    requires n <= |matches|
    ensures forall j :: 0 <= j < |Positions(matches, n, keep)| ==>
      1 <= Positions(matches, n, keep)[j] <= n && keep(matches[Positions(matches, n, keep)[j] - 1])
  {
    if n > 0 {
      PositionsSelected(matches, n - 1, keep);
      var earlier := Positions(matches, n - 1, keep);
      var positions := Positions(matches, n, keep);
      forall j | 0 <= j < |positions|
        ensures 1 <= positions[j] <= n && keep(matches[positions[j] - 1])
      {
        if j < |earlier| {
          assert positions[j] == earlier[j];
        } else {
          assert positions[j] == n;
        }
      }
    }
  }

  lemma {:induction false} PositionsComplete(matches: seq<QueryMatch>, n: nat, keep: QueryMatch -> bool)
    requires n <= |matches|
    ensures forall i :: 0 <= i < n && keep(matches[i]) ==> i + 1 in Positions(matches, n, keep)
  {
    if n > 0 {
      PositionsComplete(matches, n - 1, keep);
      var earlier := Positions(matches, n - 1, keep);
      var positions := Positions(matches, n, keep);
      forall i | 0 <= i < n && keep(matches[i]) ensures i + 1 in positions {
        if i < n - 1 {
          assert i + 1 in earlier;
          var j :| 0 <= j < |earlier| && earlier[j] == i + 1;
          assert positions[j] == i + 1;
        } else {
          assert positions[|positions| - 1] == n;
        }
      }
    }
  }

  /** There are as many selected positions as selected indices. */
  lemma {:induction false} PositionsCount(matches: seq<QueryMatch>, n: nat, keep: QueryMatch -> bool)
    requires n <= |matches|
    ensures |Positions(matches, n, keep)| == |Indices(matches, n, keep)|
  {
    if n > 0 {
      PositionsCount(matches, n - 1, keep);
      assert n - 1 !in Indices(matches, n - 1, keep);
    }
  }

  /** The number of blocks is the number of matches whose trimmed text is non-empty. */
  lemma BlockCount(matches: seq<QueryMatch>, n: nat, formatScore: F32 -> string)
    requires n <= |matches|
    ensures |BlocksUpTo(matches, n, formatScore)| == |Indices(matches, n, Kept)|
  {
    BlocksAreKeptMatches(matches, n, formatScore);
    PositionsCount(matches, n, Kept);
  }

  lemma {:induction false} NoKeptNoBlocks(matches: seq<QueryMatch>, n: nat, formatScore: F32 -> string)
    requires n <= |matches| && forall i :: 0 <= i < n ==> !Kept(matches[i])
    ensures BlocksUpTo(matches, n, formatScore) == []
  {
    if n > 0 {
      NoKeptNoBlocks(matches, n - 1, formatScore);
    }
  }

  /** With no kept match the context is the bare envelope. */
  lemma EmptyContext(matches: seq<QueryMatch>, formatScore: F32 -> string)
    requires forall i :: 0 <= i < |matches| ==> !Kept(matches[i])
    ensures RawContext(matches, formatScore) == "<context>\n\n</context>"
  {
    NoKeptNoBlocks(matches, |matches|, formatScore);
  }

  /** The block format worked through for one match with text "Hello" rendered with
      score "0.9123": one block with index 1 inside the envelope, not cut. */
  lemma OneMatchContext(score: F32, formatScore: F32 -> string, maxBytes: nat)
    requires formatScore(score) == "0.9123" && maxBytes >= 200
    ensures ContextOf([QueryMatch("a", score, "  Hello\n")], formatScore, maxBytes) ==
      Value("<context>\n" +
            ("<document>\n<index>" + "1" + "</index>\n<score>" + "0.9123" + "</score>\n<text>" + "Hello" +
             "</text>\n</document>") +
            "\n</context>")
  {
    var ms := [QueryMatch("a", score, "  Hello\n")];
    OneMatchBlocks(score, formatScore);
    var block := Block(1, "0.9123", "Hello");
    assert Join([block], "\n") == block;
    var raw := RawContext(ms, formatScore);
    assert raw == "<context>\n" + block + "\n</context>";
    ExampleTextsAreAscii();
    AsciiRawContext(ms, formatScore);
    ByteLenAtLeastLength(raw);
    assert ByteLen(raw) == |raw| < 200;
  }

  lemma ExampleTextsAreAscii()
    ensures IsAscii("  Hello\n") && IsAscii("0.9123")
  {
  }

  /** The worked example's text trims to "Hello". */
  lemma PaddedHelloTrims()
    ensures Trim("  Hello\n") == "Hello"
  {
    assert TrimStart("  Hello\n") == "Hello\n";
    assert TrimEnd("Hello\n") == "Hello";
  }

  lemma OneMatchBlocks(score: F32, formatScore: F32 -> string)
    requires formatScore(score) == "0.9123"
    ensures BlocksUpTo([QueryMatch("a", score, "  Hello\n")], 1, formatScore) == [Block(1, "0.9123", "Hello")]
  {
    var ms := [QueryMatch("a", score, "  Hello\n")];
    PaddedHelloTrims();
    var render := (i: nat, m: QueryMatch) => Block(i, formatScore(m.score), Trim(m.text));
    assert Sections(ms, 1, Kept, render) == Sections(ms, 0, Kept, render) + [render(1, ms[0])];
  }

  // ------------------------------------------------------------------ ASCII contexts

  lemma AsciiAppend(a: string, b: string)
    requires IsAscii(a) && IsAscii(b)
    ensures IsAscii(a + b)
  {
    forall i | 0 <= i < |a + b| ensures ((a + b)[i] as int) < 0x80 {
      if i >= |a| { assert (a + b)[i] == b[i - |a|]; }
    }
  }

  lemma {:induction false} AsciiJoin(parts: seq<string>, sep: string)
    requires IsAscii(sep) && forall j :: 0 <= j < |parts| ==> IsAscii(parts[j])
    ensures IsAscii(Join(parts, sep))
  {
    if |parts| > 1 {
      AsciiJoin(parts[1..], sep);
      AsciiAppend(parts[0], sep);
      AsciiAppend(parts[0] + sep, Join(parts[1..], sep));
    }
  }

  lemma AsciiTrim(s: string)
    requires IsAscii(s)
    ensures IsAscii(Trim(s))
  {
    TrimIsSlice(s);
    var i, j :| 0 <= i <= j <= |s| && Trim(s) == s[i..j];
    assert forall k :: 0 <= k < j - i ==> s[i..j][k] == s[i + k];
  }

  lemma {:induction false} AsciiBlocks(matches: seq<QueryMatch>, n: nat, formatScore: F32 -> string)
    requires n <= |matches|
    requires forall i :: 0 <= i < |matches| ==> IsAscii(matches[i].text) && IsAscii(formatScore(matches[i].score))
    ensures forall j :: 0 <= j < |BlocksUpTo(matches, n, formatScore)| ==> IsAscii(BlocksUpTo(matches, n, formatScore)[j])
  {
    if n > 0 {
      AsciiBlocks(matches, n - 1, formatScore);
      var m := matches[n - 1];
      if Kept(m) {
        AsciiTrim(m.text);
        var d := DecimalString(n);
        assert IsAscii(d) by {
          forall k | 0 <= k < |d| ensures (d[k] as int) < 0x80 { assert IsDigit(d[k]); }
        }
        var b := Block(n, formatScore(m.score), Trim(m.text));
        AsciiAppend("<document>\n<index>", d);
        AsciiAppend("<document>\n<index>" + d, "</index>\n<score>");
        AsciiAppend("<document>\n<index>" + d + "</index>\n<score>", formatScore(m.score));
        AsciiAppend("<document>\n<index>" + d + "</index>\n<score>" + formatScore(m.score), "</score>\n<text>");
        AsciiAppend("<document>\n<index>" + d + "</index>\n<score>" + formatScore(m.score) + "</score>\n<text>",
                    Trim(m.text));
        AsciiAppend("<document>\n<index>" + d + "</index>\n<score>" + formatScore(m.score) + "</score>\n<text>" +
                    Trim(m.text), "</text>\n</document>");
      }
      var blocks := BlocksUpTo(matches, n, formatScore);
      var earlier := BlocksUpTo(matches, n - 1, formatScore);
      assert forall j :: 0 <= j < |earlier| ==> blocks[j] == earlier[j];
    }
  }

  lemma AsciiRawContext(matches: seq<QueryMatch>, formatScore: F32 -> string)
    requires forall i :: 0 <= i < |matches| ==> IsAscii(matches[i].text) && IsAscii(formatScore(matches[i].score))
    ensures IsAscii(RawContext(matches, formatScore))
  {
    var blocks := BlocksUpTo(matches, |matches|, formatScore);
    AsciiBlocks(matches, |matches|, formatScore);
    AsciiJoin(blocks, "\n");
    AsciiAppend("<context>\n", Join(blocks, "\n"));
    AsciiAppend("<context>\n" + Join(blocks, "\n"), "\n</context>");
  }

  /** When every text and every rendered score is ASCII, each byte is a character, so the
      cut never lands inside a character and `build_context` never panics. */
  lemma AsciiContextNeverPanics(matches: seq<QueryMatch>, formatScore: F32 -> string, maxBytes: nat)
    requires forall i :: 0 <= i < |matches| ==> IsAscii(matches[i].text) && IsAscii(formatScore(matches[i].score))
    ensures ContextOf(matches, formatScore, maxBytes).Value?
  {
    AsciiRawContext(matches, formatScore);
    var raw := RawContext(matches, formatScore);
    ByteLenAtLeastLength(raw);
    if ByteLen(raw) > maxBytes {
      AsciiBoundary(raw, maxBytes);
    }
  }

  // ------------------------------------------------------------------ messages

  const SYSTEM_CONTENT := "You are a helpful assistant. Use only the provided context to answer the question. Respond in markdown format. If the context is insufficient, say you do not know."
  const REQUEST_OPEN := "<request>\n"
  const QUESTION_OPEN := "\n<question>\n"
  const QUESTION_CLOSE := "\n</question>\n</request>"

  /** `build_messages`: the fixed system instruction, then the user message. */
  function BuildMessages(context: string, prompt: string): (messages: seq<ChatMessage>)
    ensures |messages| == 2 && messages[0] == System(SYSTEM_CONTENT) && messages[1].User?
  {
    [System(SYSTEM_CONTENT), User(REQUEST_OPEN + context + QUESTION_OPEN + prompt + QUESTION_CLOSE)]
  }

  /** The user message holds the context and the question verbatim, at offsets fixed by
      the context's length, between the template's literal parts. */
  lemma UserMessageLayout(context: string, prompt: string)
    ensures var u := BuildMessages(context, prompt)[1].content;
      var q := |REQUEST_OPEN| + |context| + |QUESTION_OPEN|;
      && |u| == q + |prompt| + |QUESTION_CLOSE|
      && u[..|REQUEST_OPEN|] == REQUEST_OPEN
      && u[|REQUEST_OPEN|..|REQUEST_OPEN| + |context|] == context
      && u[|REQUEST_OPEN| + |context|..q] == QUESTION_OPEN
      && u[q..q + |prompt|] == prompt
      && u[q + |prompt|..] == QUESTION_CLOSE
  {
  }

  /** Two requests with contexts of the same length differ in their user message
      whenever their contexts or their questions differ. */
  lemma UserMessageDeterminesInputs(c1: string, p1: string, c2: string, p2: string)
    requires |c1| == |c2| && BuildMessages(c1, p1) == BuildMessages(c2, p2)
    ensures c1 == c2 && p1 == p2
  {
    UserMessageLayout(c1, p1);
    UserMessageLayout(c2, p2);
  }

  // ------------------------------------------------------------------ main

  const EMPTY_PROMPT_MESSAGE := "Prompt is empty"

  /** `response.choices[0].message.content.as_ref().map(|s| s.trim()).unwrap_or("")`;
      indexing an empty choice list panics. */
  function AnswerText(response: ChatResponse): (answer: Checked<string>)
    ensures answer.Panicked? <==> response.choices == []
    ensures answer.Value? && response.choices[0].None? ==> answer.value == ""
    ensures answer.Value? && response.choices[0].Some? ==> answer.value == Trim(response.choices[0].value)
  {
    if response.choices == [] then
      Panicked("index out of bounds: the len is 0 but the index is 0")
    else
      match response.choices[0]
      case None => Value("")
      case Some(content) => Value(Trim(content))
  }

  /** The printed answer carries no leading or trailing whitespace. */
  lemma AnswerIsTrimmed(response: ChatResponse)
    requires AnswerText(response).Value?
    ensures Trim(AnswerText(response).value) == AnswerText(response).value
  {
    if response.choices[0].Some? {
      TrimIdempotent(response.choices[0].value);
    }
  }

  /** The worked example: content "  answer  " prints as "answer". */
  lemma PaddedAnswer()
    ensures AnswerText(ChatResponse([Some("  answer  ")])) == Value("answer")
  {
    var s := "  answer  ";
    assert TrimStart(s) == "answer  " by {
      assert s[1..] == " answer  " && s[1..][1..] == "answer  ";
    }
    assert TrimEnd("answer  ") == "answer" by {
      assert "answer  "[..7] == "answer " && "answer "[..6] == "answer";
    }
  }

  datatype AskError =
    | ConfigError(env: EnvError)
    | EmptyPrompt(message: string)
    | QueryFailed(query: QueryDb.QueryError)
    | ChatFailed(chat: OpenAIError)

  /** The printed answer or the error `main` returns (or a panic), and the remote calls
      issued, in order. */
  datatype AskRun = AskRun(outcome: Checked<Result<string, AskError>>, calls: seq<Call>)

  /** `main`: configuration first, then the prompt check, then retrieval, context,
      messages and the chat call. `env` is the environment after the optional `.env`
      file; `stdin` is what was read from standard input. */
  function Run(env: Environment, stdin: string, maxContextBytes: nat, formatScore: F32 -> string,
               embed: EmbedService, store: StoreService, chat: ChatService): (run: AskRun)
    // nothing remote happens unless the configuration loads and the prompt is not blank
    ensures run.calls == [] <==> FromEnv(env).Err? || Trim(stdin) == []
    // the first call embeds the trimmed prompt; a chat call, if any, is the third and last
    ensures run.calls != [] ==>
      FromEnv(env).Ok? && run.calls[0] == EmbedCall(QueryDb.PromptEmbedRequest(Trim(stdin), FromEnv(env).value))
    ensures |run.calls| <= 3 && (|run.calls| == 3 ==> run.calls[2].ChatCall?)
    // an answer is printed only after all three calls
    ensures run.outcome.Value? && run.outcome.value.Ok? ==> |run.calls| == 3
  {
    match FromEnv(env)
    case Err(e) => AskRun(Value(Err(ConfigError(e))), [])
    case Ok(config) =>
      var prompt := Trim(stdin);
      if prompt == [] then
        AskRun(Value(Err(EmptyPrompt(EMPTY_PROMPT_MESSAGE))), [])
      else
        var retrieval := QueryDb.Query(prompt, config, embed, store);
        match retrieval.outcome
        case Panicked(why) => AskRun(Panicked(why), retrieval.calls)
        case Value(Err(e)) => AskRun(Value(Err(QueryFailed(e))), retrieval.calls)
        case Value(Ok(result)) =>
          match ContextOf(result.matches, formatScore, maxContextBytes)
          case Panicked(why) => AskRun(Panicked(why), retrieval.calls)
          case Value(context) =>
            var request := ChatRequest(config.openaiApiKey, BuildMessages(context, prompt));
            var calls := retrieval.calls + [ChatCall(request)];
            match chat(request)
            case Err(e) => AskRun(Value(Err(ChatFailed(e))), calls)
            case Ok(response) =>
              match AnswerText(response)
              case Panicked(why) => AskRun(Panicked(why), calls)
              case Value(answer) => AskRun(Value(Ok(answer)), calls)
  }

  /** A configuration error ends the run before anything else, and a prompt that is
      empty after trimming ends it before any remote call. */
  lemma FailsBeforeAnyCall(env: Environment, stdin: string, maxContextBytes: nat, formatScore: F32 -> string,
                           embed: EmbedService, store: StoreService, chat: ChatService)
    ensures var run := Run(env, stdin, maxContextBytes, formatScore, embed, store, chat);
      && (FromEnv(env).Err? ==> run == AskRun(Value(Err(ConfigError(FromEnv(env).error))), []))
      && (FromEnv(env).Ok? && AllWhitespace(stdin) ==> run == AskRun(Value(Err(EmptyPrompt("Prompt is empty"))), []))
      && (run.calls == [] <==> FromEnv(env).Err? || AllWhitespace(stdin))
  {
    TrimEmptyIff(stdin);
  }

  /** A printed answer means: the trimmed prompt was embedded, the store was queried with
      the fixed parameters, the chat request carried the two-message template around the
      context built from the retrieved matches and the trimmed prompt, and the printed line
      is the trimmed content of the first choice of the reply. */
  lemma AnswerProvenance(env: Environment, stdin: string, maxContextBytes: nat, formatScore: F32 -> string,
                         embed: EmbedService, store: StoreService, chat: ChatService)
    requires Run(env, stdin, maxContextBytes, formatScore, embed, store, chat).outcome.Value?
    requires Run(env, stdin, maxContextBytes, formatScore, embed, store, chat).outcome.value.Ok?
    ensures var run := Run(env, stdin, maxContextBytes, formatScore, embed, store, chat);
      && |run.calls| == 3
      && run.calls[0] == EmbedCall(EmbedRequest(FromEnv(env).value.openaiApiKey, [Trim(stdin)]))
      && run.calls[1].StoreCall? && run.calls[1].query.topK == 5 && run.calls[1].query.includeMetadata
      && run.calls[2].ChatCall?
      && |run.calls[2].chat.messages| == 2
      && run.calls[2].chat.messages[0] == System(SYSTEM_CONTENT)
      && Trim(run.outcome.value.value) == run.outcome.value.value
    ensures var run := Run(env, stdin, maxContextBytes, formatScore, embed, store, chat);
      var config := FromEnv(env).value;
      var retrieval := QueryDb.Query(Trim(stdin), config, embed, store);
      var context := ContextOf(retrieval.outcome.value.value.matches, formatScore, maxContextBytes).value;
      var request := ChatRequest(config.openaiApiKey, BuildMessages(context, Trim(stdin)));
      && run.calls == retrieval.calls + [ChatCall(request)]
      && run.outcome.value.value == AnswerText(chat(request).value).value
  {
    var config := FromEnv(env).value;
    var prompt := Trim(stdin);
    var retrieval := QueryDb.Query(prompt, config, embed, store);
    var result := retrieval.outcome.value.value;
    var context := ContextOf(result.matches, formatScore, maxContextBytes).value;
    var request := ChatRequest(config.openaiApiKey, BuildMessages(context, prompt));
    AnswerIsTrimmed(chat(request).value);
  }
}
