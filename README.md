# ai-rag-rust core, modelled in Dafny

This project models the deterministic core of a small retrieval-augmented generation
tool. The tool has two command-line programs:

- `make_embeddings` splits a FAQ text into paragraphs, embeds each paragraph and writes
  one record per embedding.
- `ask` reads a question and embeds it. It retrieves the five nearest paragraphs from a
  vector store, wraps them in a tagged, byte-bounded `<context>` and sends context plus
  question to a chat model in a fixed two-message template. It prints the trimmed answer.

Both programs read their configuration from the environment through `Config::from_env`.

The model is pure functions over values, except `build_context`. The source writes that
one as a loop that pushes into a vector, so it is a method with a loop invariant
(`Ask.BuildContext`), proved equal to a specification function (`Ask.ContextOf`).

Modelling choices:

- A Rust `String` is a `seq<char>` of Unicode scalar values.
- Its byte length (`str::len`) is the sum of the UTF-8 widths (`Strings.ByteLen`).
- The byte slice `&s[..n]` yields a value only when `n` falls on a character boundary and
  panics otherwise (`Strings.SliceToByte`).
- A panic is the `Panicked` case of `Outcomes.Checked`.
- `trim` follows Rust's `char::is_whitespace`, the Unicode White_Space property.
- `f32` scores and vectors are only copied, never computed on, so they are kept as 32-bit
  patterns (`bv32`).
- The `{:.4}` rendering of a score is the parameter `formatScore`.
- `MAX_CONTEXT_CHARS` is the parameter `maxContextBytes`. `rag::constants` is not part of
  this model.
- The two remote services are parameters, as functions from request to reply
  (`EmbedService`, `StoreService`, `ChatService`).
- Each pipeline returns the list of calls it issued, so "no remote call happens" can be
  stated.
- The environment is a map from variable name to value, taken after the optional `.env`
  file has been loaded.
- Standard input is the string that was read.
- `str::parse::<u32>` follows Rust's `u32::from_str`:
  - an optional leading `+`;
  - a lone sign is an invalid digit;
  - a non-digit is reported before an overflow at the same position;
  - error texts are the `Display` texts of `ParseIntError`.
- The paragraph separator `\n{2,}|\r\n{2,}` is modelled directly as the leftmost-first,
  greedy, non-overlapping search that `Regex::split` performs. No general regex engine is
  modelled.

Files:

- `outcomes.dfy`: `Option`, `Result` (with `:-` for Rust's `?`) and `Checked`.
- `strings.dfy`: `trim`, UTF-8 byte lengths, byte slicing, `join`.
- `decimal.dfy`: `to_string` and `parse::<u32>`.
- `types.dfy`: the records of `src/types.rs` and the requests and replies of the remote
  services.
- `env_load.dfy`: `Config::from_env`.
- `query_db.dfy`: `query_db` and its match reshaping.
- `make_embeddings.dfy`: the paragraph split and record assembly.
- `ask.dfy`: `build_context`, `build_messages` and `main` of `ask`.

## Model

| member | source | states |
|---|---|---|
| Strings.TrimStartFacts | src/bin/ask.rs:20 | `trim_start` returns a suffix that does not begin with whitespace, and everything it drops is whitespace |
| Strings.TrimEndFacts | src/bin/ask.rs:20 | `trim_end` returns a prefix that does not end with whitespace, and everything it drops is whitespace |
| Strings.TrimIsSlice | src/bin/ask.rs:55 | `trim` keeps a contiguous slice of its input whose ends are not whitespace; everything around it is whitespace |
| Strings.TrimEmptyIff | src/bin/ask.rs:20-22 | a trimmed string is empty exactly when the input is all whitespace |
| Strings.TrimIdempotent | src/bin/ask.rs:43 | trimming a trimmed string changes nothing |
| Strings.Utf8Width | src/bin/ask.rs:69 | a character takes 1 to 4 bytes, and exactly 1 when it is ASCII |
| Strings.ByteLenAppend | src/bin/ask.rs:67-69 | the byte length of a concatenation is the sum of the byte lengths |
| Strings.ByteLenAtLeastLength | src/bin/ask.rs:69 | the byte length is at least the character count, and equal exactly for ASCII text |
| Strings.PrefixBytesStrictlyIncrease | src/bin/ask.rs:70 | a longer character prefix has strictly more bytes, so at most one prefix has a given byte length |
| Strings.FitChars | src/bin/ask.rs:70 | the longest character prefix that fits in a byte budget: it fits, and one more character would not |
| Strings.SliceToByte | src/bin/ask.rs:70 | `&s[..n]` succeeds exactly when `n` is within the length and on a character boundary, and then it is a prefix of exactly `n` bytes |
| Strings.AsciiBoundary | src/bin/ask.rs:70 | in ASCII text every byte offset up to the length is a character boundary |
| Decimal.DigitChar | src/bin/make_embeddings.rs:34 | a digit value below 10 is written as the ASCII digit with that value |
| Decimal.DecimalString | src/bin/make_embeddings.rs:34 | `to_string` of an unsigned integer is a non-empty string of digits with no leading zero |
| Decimal.FoldDigitsSnoc | src/env_load.rs:37 | appending a digit multiplies the numeral's value by ten and adds the digit |
| Decimal.FoldDigitsGrows | src/env_load.rs:37 | reading more digits never lowers the accumulated value |
| Decimal.FoldDecimalString | src/bin/make_embeddings.rs:34 | reading back the numeral `to_string` writes gives the number |
| Decimal.DecimalStringInjective | src/bin/make_embeddings.rs:34 | distinct numbers have distinct numerals |
| Decimal.AccumulateU32 | src/env_load.rs:37-38 | the digit loop succeeds exactly on all-digit text whose value is below 2^32, and then returns that value; it never reports `Empty` |
| Decimal.ParseU32 | src/env_load.rs:37-38 | `parse::<u32>` yields a value below 2^32, namely the value of the digits after an optional `+` (leading zeros allowed), and fails with `Empty` exactly on the empty string |
| Decimal.ParseDecimalString | src/env_load.rs:35-40 | every `u32` survives `to_string` followed by `parse` |
| Decimal.ParseU32Accepts | src/env_load.rs:35-40 | `parse::<u32>` accepts exactly a non-empty numeral, optionally after `+`, whose value is below 2^32 |
| EnvLoad.FromEnv | src/env_load.rs:23-60 | on success each field is the variable's value unchanged, the dimension is the parsed value below 2^32, and the metric falls back to "cosine"; a `Missing` error names a required variable that is absent; a `Parse` error names the dimension, which does not parse |
| EnvLoad.FromEnvSucceedsIff | src/env_load.rs:26-59 | `from_env` succeeds exactly when all six required variables are set and the dimension parses |
| EnvLoad.FromEnvReportsFirstMissing | src/env_load.rs:26-49 | the error is `Missing` of the first absent variable in lookup order, unless an unparsable dimension comes first |
| EnvLoad.FromEnvParseError | src/env_load.rs:35-40 | a set but unparsable dimension fails with `Parse("PINECONE_INDEX_DIMENSION", message)`, whatever the cloud and region variables hold |
| EnvLoad.MetricNeverFails | src/env_load.rs:42-43 | removing the metric variable never changes success or failure or any error, and a successful result then differs only in a metric of "cosine" |
| QueryDb.MatchText | src/query_db.rs:43-49 | the text is the metadata's "text" value when the metadata is an object holding a string there, and "" in every other case |
| QueryDb.ReshapeAt | src/query_db.rs:36-52 | reshaping keeps length and order, copies each id and score, and takes each text from the metadata |
| QueryDb.ReshapeAppend | src/query_db.rs:36-52 | reshaping commutes with concatenation: no match is dropped, merged or reordered |
| QueryDb.Query | src/query_db.rs:19-55 | the prompt alone is embedded first; the store is queried only after an embedding came back, with top_k 5, metadata included and the first vector; an embedding failure is tagged `OpenAI` and a store failure `Pinecone`; success carries the reshaped matches; an empty embedding list panics |
| MakeEmbeddings.NewlineRunIsMaximal | src/bin/make_embeddings.rs:16 | the counted run at a position is all `\n` and is not followed by another `\n` |
| MakeEmbeddings.MatchLenIsLongestSeparator | src/bin/make_embeddings.rs:16 | a match at a position is a separator that cannot be extended by another `\n`; no match means no `\n\n` and no `\r\n\n` starts there |
| MakeEmbeddings.NewlineRunExact | src/bin/make_embeddings.rs:16 | a run of `\n` not followed by another `\n` is exactly the counted run |
| MakeEmbeddings.MatchLenOfSeparator | src/bin/make_embeddings.rs:16 | conversely, a separator at a position that no further `\n` extends is exactly the match there |
| MakeEmbeddings.NoMatchStartsInSpan | src/bin/make_embeddings.rs:16 | no match begins inside a span without a blank line unless the span ends in `\r` or `\n` right before a `\n` |
| MakeEmbeddings.SuffixOfInterleave | src/bin/make_embeddings.rs:17 | the last chunk is a suffix of the rebuilt text |
| MakeEmbeddings.ConsSeparators | src/bin/make_embeddings.rs:17 | adding a separator match in front keeps every separator a match |
| MakeEmbeddings.ConsNoBlankLine | src/bin/make_embeddings.rs:17 | adding a chunk without a blank line keeps all chunks free of blank lines |
| MakeEmbeddings.ConsStartsClean | src/bin/make_embeddings.rs:17 | adding a chunk in front keeps later chunks from beginning with `\n` |
| MakeEmbeddings.ConsEndsClean | src/bin/make_embeddings.rs:17 | adding a chunk in front keeps chunks before `\n` separators from ending with `\r` or `\n` |
| MakeEmbeddings.ConsMaximal | src/bin/make_embeddings.rs:17 | adding a chunk and separator in front of text that does not begin with `\n` keeps every separator maximal |
| MakeEmbeddings.Scan | src/bin/make_embeddings.rs:16-17 | the search yields one more chunk than separators |
| MakeEmbeddings.ScanRebuilds | src/bin/make_embeddings.rs:16-17 | putting the separators back between the chunks rebuilds the scanned text |
| MakeEmbeddings.ScanSeparators | src/bin/make_embeddings.rs:16 | every removed separator matches the pattern |
| MakeEmbeddings.ScanNoBlankLine | src/bin/make_embeddings.rs:16-17 | no chunk holds two consecutive `\n` |
| MakeEmbeddings.ScanFirstChunk | src/bin/make_embeddings.rs:17 | the first chunk of a search is a prefix of the text from where it began |
| MakeEmbeddings.ScanChunkStarts | src/bin/make_embeddings.rs:16-17 | greedy matching: no chunk after a separator begins with `\n` |
| MakeEmbeddings.ScanChunkEnds | src/bin/make_embeddings.rs:16-17 | leftmost matching: no chunk before a `\n` separator ends with `\r` or `\n` |
| MakeEmbeddings.ScanSeparatorsMaximal | src/bin/make_embeddings.rs:16-17 | greedy matching: the text after every separator, chunk and all, does not begin with `\n` |
| MakeEmbeddings.ChunkHasNoBlankLine | src/bin/make_embeddings.rs:16-17 | text scanned without a match holds no `\n\n` |
| MakeEmbeddings.Split | src/bin/make_embeddings.rs:16-17 | `re.split(text)`: one more chunk than separators; interleaving rebuilds the text; every separator matches the pattern; no chunk has a blank line; later chunks do not begin with `\n`; the text after every separator does not begin with `\n`; no chunk before a `\n` separator ends with `\r` or `\n` |
| MakeEmbeddings.TailIsLeftmostGreedy | src/bin/make_embeddings.rs:17 | dropping the first chunk and separator of a leftmost, greedy decomposition leaves one |
| MakeEmbeddings.NoMatchInFirstChunk | src/bin/make_embeddings.rs:16-17 | no match begins inside the first chunk of a leftmost, greedy decomposition |
| MakeEmbeddings.MatchAfterFirstChunk | src/bin/make_embeddings.rs:16-17 | right after the first chunk the pattern matches exactly the first separator |
| MakeEmbeddings.ScanSkips | src/bin/make_embeddings.rs:17 | the search passes a span where no match begins without changing its result |
| MakeEmbeddings.ScanOfLastChunk | src/bin/make_embeddings.rs:17 | a decomposition with a single chunk is what the search finds |
| MakeEmbeddings.ScanAtFirstSeparator | src/bin/make_embeddings.rs:17 | the search removes the first separator and continues on the rest of the decomposition |
| MakeEmbeddings.ScanIsUnique | src/bin/make_embeddings.rs:16-17 | any leftmost, greedy decomposition of the text from a position is the one the search finds |
| MakeEmbeddings.SplitIsUnique | src/bin/make_embeddings.rs:16-17 | `Split`'s contract determines its result: every decomposition with those properties equals `Split(text)` |
| MakeEmbeddings.LeadingSeparator | src/bin/make_embeddings.rs:17 | a text that begins with a separator yields an empty first chunk |
| MakeEmbeddings.TrailingSeparator | src/bin/make_embeddings.rs:17 | a text that ends with `\n\n` yields an empty last chunk |
| MakeEmbeddings.WindowsBlankLineDoesNotSplit | src/bin/make_embeddings.rs:16 | `\r\n\r\n` is not a separator: "a\r\n\r\nb" stays one chunk |
| MakeEmbeddings.MakeRecords | src/bin/make_embeddings.rs:29-40 | one record per returned embedding, in order: record i has id `i.to_string()`, the i-th vector and the i-th chunk; it panics with the index-out-of-bounds message exactly when there are more embeddings than chunks |
| MakeEmbeddings.RecordIdsIdentifyPositions | src/bin/make_embeddings.rs:34 | each record id reads back as its position, so ids are pairwise distinct |
| MakeEmbeddings.RecordsRebuildText | src/bin/make_embeddings.rs:16-40 | with one embedding per chunk no panic occurs, and the records' texts interleaved with the separators rebuild the source text |
| Ask.Truncate | src/bin/ask.rs:69-73 | within budget the context is unchanged; over budget it is a prefix of exactly the budget in bytes; it panics exactly when it is over budget and the cut is not on a character boundary |
| Ask.BuildContext | src/bin/ask.rs:51-74 | the loop's result equals `ContextOf`, the envelope around the blocks of the kept matches, truncated to the byte budget |
| Ask.Indices | src/bin/ask.rs:54-58 | the set of 0-based indices below n whose match is selected, and no others |
| Ask.SectionsAtPositions | src/bin/ask.rs:54-64 | section j is the rendering of the match at the j-th selected 1-based position, and there are as many sections as selected positions |
| Ask.PositionsIncrease | src/bin/ask.rs:54 | selected 1-based positions lie between 1 and n and strictly increase |
| Ask.PositionsSelected | src/bin/ask.rs:55-58 | every listed position holds a selected match |
| Ask.PositionsComplete | src/bin/ask.rs:55-58 | every selected match has its position listed |
| Ask.PositionsCount | src/bin/ask.rs:54-58 | there are as many selected positions as selected indices |
| Ask.BlocksAreKeptMatches | src/bin/ask.rs:54-64 | block j is built from the match at the j-th kept 1-based position, with that position as index, its rendered score and its trimmed text |
| Ask.KeptPositionsExact | src/bin/ask.rs:54-58 | kept positions strictly increase, each one has non-empty trimmed text, and every match with non-empty trimmed text appears |
| Ask.BlockCount | src/bin/ask.rs:54-58 | the number of blocks is the number of matches whose trimmed text is non-empty |
| Ask.NoKeptNoBlocks | src/bin/ask.rs:54-58 | when no trimmed text is non-empty there are no blocks |
| Ask.EmptyContext | src/bin/ask.rs:67 | with no kept match the context is `<context>\n\n</context>` |
| Ask.PaddedHelloTrims | src/bin/ask.rs:55 | "  Hello\n" trims to "Hello" |
| Ask.OneMatchBlocks | src/bin/ask.rs:54-64 | a single match with text "  Hello\n" and score rendered "0.9123" gives the one block with index 1 and text "Hello" |
| Ask.OneMatchContext | src/bin/ask.rs:59-73 | a match with text "  Hello\n" gives one block with index 1 and text "Hello" inside the envelope, uncut |
| Ask.AsciiAppend | src/bin/ask.rs:67 | concatenating ASCII text gives ASCII text |
| Ask.AsciiJoin | src/bin/ask.rs:67 | joining ASCII parts with an ASCII separator gives ASCII text |
| Ask.AsciiTrim | src/bin/ask.rs:55 | trimming ASCII text gives ASCII text |
| Ask.AsciiBlocks | src/bin/ask.rs:59-64 | with ASCII texts and scores every block is ASCII |
| Ask.AsciiRawContext | src/bin/ask.rs:67 | with ASCII texts and scores the untruncated context is ASCII |
| Ask.AsciiContextNeverPanics | src/bin/ask.rs:67-73 | with ASCII texts and scores `build_context` never panics |
| Ask.BuildMessages | src/bin/ask.rs:76-95 | exactly two messages: the fixed system instruction, then a user message |
| Ask.UserMessageLayout | src/bin/ask.rs:79-82 | the user message is `<request>\n`, the context, `\n<question>\n`, the prompt, `\n</question>\n</request>`, each at its fixed offset |
| Ask.UserMessageDeterminesInputs | src/bin/ask.rs:79-82 | for contexts of equal length, equal messages mean equal contexts and equal questions |
| Ask.AnswerText | src/bin/ask.rs:39-44 | the answer is the trimmed content of the first choice, or "" without content; no choice at all panics |
| Ask.AnswerIsTrimmed | src/bin/ask.rs:43-46 | the printed answer has no leading or trailing whitespace |
| Ask.PaddedAnswer | src/bin/ask.rs:39-46 | content "  answer  " prints as "answer" |
| Ask.Run | src/bin/ask.rs:15-49 | no remote call is made exactly when the configuration fails or the trimmed prompt is empty; otherwise the first call embeds the trimmed prompt; at most three calls, the third being the chat call; a printed answer comes only after all three |
| Ask.FailsBeforeAnyCall | src/bin/ask.rs:16-26 | a configuration error ends the run first; an all-whitespace prompt ends it with the error "Prompt is empty"; no remote call is made exactly in these two cases |
| Ask.AnswerProvenance | src/bin/ask.rs:16-46 | a printed answer means three calls: the trimmed prompt embedded with the OpenAI key, the store queried with top_k 5 and metadata, then the chat request with the OpenAI key and `build_messages` of the context built from the retrieved matches and the trimmed prompt; the printed line is the trimmed content of the reply's first choice |

## Left out

- `src/pinecone_client.rs` is not part of this model. The HTTP client is the `StoreService` parameter, including its URLs, headers, status handling, JSON decoding and the describe-then-query host lookup.
- The OpenAI SDK calls are the `EmbedService` and `ChatService` parameters. The model names `EMBEDDING_MODEL` and `CHAT_MODEL` are not carried in the requests.
- The request builders' `.build()?` failures in `query_db`, `ask` and `make_embeddings` are not modelled. The model takes them to always succeed, and the `.unwrap()` in `build_messages` never panics.
- File I/O is not modelled: reading `faq.txt`, writing the JSON records, loading `.env`, and reading standard input, including its `?` error. The environment and the input text are parameters.
- `env::var` failing with `NotUnicode` is not modelled. A variable is either present with a string value or absent.
- Float semantics are not modelled. Scores and vectors are opaque bit patterns, and the `{:.4}` rendering is the parameter `formatScore`.
- `MAX_CONTEXT_CHARS` has no fixed value. It is the parameter `maxContextBytes`, because `rag::constants` is not part of this model.
- Ask.Truncate: a panic carries a simplified message, without the byte offsets and the character that Rust's slice panic names.
- `make_embeddings`'s `main` sequencing is left as its two pure steps: the chunk split and the record assembly. The embedding request over all chunks, the pretty-printed JSON output and the final count line are not modelled.
- `src/bin/make_db.rs`, `src/bin/upload_embeddings.rs` and `src/bin/find_similar.rs` are not part of this model. They are one-shot sequences of remote calls.
- The tokio runtime and `async` are not modelled. Calls happen in the order the model lists them.
- Printing to standard output is not modelled. The printed line is the `Ok` value of `Ask.Run`.
