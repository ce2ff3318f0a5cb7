# llamad, modelled and proved in Dafny

llamad is a daemon that serves one llama.cpp model over gRPC. This project models the part of it that
has invariants of its own, and proves them over unbounded runs:

- the **stream filter**, which withholds bytes that may be a truncated UTF-8 character or the start of
  a stop string, and halts at a stop (`Utf8`, `Stops`, `StreamFilters`; theorems in `FilterTheorems`,
  `Chunking`, `FilterExamples`);
- the **KV-cache record** and the **generation loop**, over a memory that can refuse a trim, lose its
  oldest positions, and fail or throw half-way through a batch (`KvCache`, `Generation`,
  `EngineObject`; theorems in `GenerationTheorems`, `RunTheorems`), and under concurrent requests
  (`Locking`, `Serialization`);
- the **incremental chat parser**, over any parser at all, even one that changes its mind
  (`ChatStreams`, `ChatUtf8`);
- the **response stream**, under a client that may be gone at any write (`Wire`, `Service`;
  end-to-end theorems in `ServiceTheorems`);
- the **sampler and its shortcuts** (`Sampling`) and the **list splitter** (`SplitList`).

What updates state in the program is a class or a loop here, proved equal to a specification
function; the theorems are about those functions, so they hold of the classes.

How the outside world enters:

- The receiver of text is a function from everything it has been given to its answer (accept, decline,
  throw). Quantifying over such functions covers every behaviour of a stateful callback. An empty
  callback is the one that accepts everything.
- The backend is a function from the tick of each call to its answer. After a refusal or failure the
  memory holds arbitrary contents. Logits are those of the last decode, whatever was trimmed since, and
  are a function of the token sequence only while the memory is exact; otherwise they are arbitrary.
- Tokenizer, token text, sampler, chat parser and JSON validation are uninterpreted functions; where
  the program can throw, they can.

Bytes are the numbers 0 to 255, and the program's bit-mask tests are written as tests of the high
bits. Token counts are natural numbers; `RunTheorems.CompletionBounds` keeps them within one more
than the context size, so the program's 32-bit counters do not wrap for any context of less than
2^31 tokens.

## What is false of the program, and exactly when

- **The way a text is cut into pieces can show.** With the stops `abcdef` and `cd` and the text
  `abcdef`, one push delivers nothing and bytewise pushes deliver `ab`
  (`FilterExamples.NestedStopsShow`). For UTF-8 stops, `Chunking.ChunkingIndependenceIff` proves that it never shows if and only if no stop can be
  recognised inside the first bytes of another, except at its start.
- **A delivered chunk can end inside a character** when a stop string begins half-way through one
  (`FilterExamples.StopInsideCharacter`). `Chunking.ChunksAreUtf8Iff` proves that every chunk of every
  text that is UTF-8 so far is valid UTF-8 if and only if no stop splits a character
  (`FilterTheorems.CharacterSafe`): a finite condition on the stops, over the ways to begin a
  character and the proper prefixes of the stops. Stops of whole characters, as a protobuf `string`
  holds, satisfy it (`FilterTheorems.WholeStopsAreSafe`).
- **Delivered bytes can differ from the offline cut** of what a stopped run has read: on malformed text
  (`FilterExamples.MalformedText`), or with such stops. `FilterTheorems.StopIsOfflineIff` gives the
  exact condition for every run that stops.
- **Tool calls can be stale.** `finish` reports the calls of the last non-empty parse, so when the
  final parse is empty the calls of an earlier partial parse are reported
  (`ChatStreams.StaleCallsAreReported`); `ChatStreams.CallsAreFinalIff` says exactly when.
- **Tool-call arguments need not be objects.** docs/protocol.md and proto/llamad/v1/llamad.proto
  promise a complete JSON object; the code checks that the text is valid JSON, and the model follows
  the code. A call with the arguments `5` is reported (`ChatStreams.NumberIsReported`);
  `ChatStreams.ArgumentsAreObjectsIff` and `ServiceTheorems.FinishSendsObjectsIff` say exactly when
  what is reported, and what is sent, are objects.
- **The grammar retry can pick a refused token**: when no token the grammar allows has a finite
  logit, greedy sampling behind it picks token 0, allowed or not (`Sampling.RefusedTokenIsPicked`;
  `Sampling.GreedyObeysGrammarIff` gives the exact condition). Such a token reaches a reply only if the
  grammar accepts it: when accepting throws on tokens it does not allow, every token of every reply is
  allowed, as src/engine.cpp:474 says (`RunTheorems.ReplyObeysGrammar`).
- **A cancelled call does not stop at the next token**, as docs/protocol.md:76-77 says, but at the next
  chunk: the program polls only when one is delivered (`FilterTheorems.PushCallsIff`,
  `ServiceTheorems.PollsPerChunk`). Tokens with no text never cause a poll
  (`FilterTheorems.EmptyPieceIsQuiet`); of those with text, no more than three, or fewer than some stop
  has bytes, pass without one (`ServiceTheorems.PollsAreSoon`).

## Model

| member | source | states |
|---|---|---|
| Utf8.Tail | src/engine.cpp:241-271 | the only suffix that is a lead byte with some, not all, of the bytes it announces; at most three bytes |
| Utf8.IncompleteUtf8Tail | src/engine.cpp:244-271 | the backward scan finds exactly that suffix, on any bytes |
| Utf8.ValidIff | src/engine.cpp:292-294 | valid UTF-8 is exactly the concatenations of characters of section 4 of RFC 3629, of one to four bytes |
| Utf8.CharIffEncodesScalar | src/engine.cpp:252-264 | those characters are exactly the encodings of the Unicode scalar values, as section 3 of RFC 3629 lays out their bits |
| Utf8.CutCharIsTail | src/engine.cpp:241-243 | whatever came before, a character cut short is withheld: exactly what has arrived of it |
| Utf8.TailByBytes | src/engine.cpp:248-267 | by lead byte: C0 to DF alone, E0 to EF with up to one continuation byte, F0 to F7, so also F5 to F7 that begin nothing, with up to two; no other |
| Utf8.ValidSlice | src/engine.cpp:292-294 | cutting valid UTF-8 (section 4 of RFC 3629) at two character boundaries leaves valid UTF-8 |
| Utf8.CutInsideCharacter | src/engine.cpp:241-243 | a cut inside a character always leaves a truncated character to hold back |
| Stops.LeftmostIsFirst | src/engine.cpp:312-323 | stops of every length but zero count, wherever they occur, and the leftmost occurrence of any is found |
| Stops.FindMatch | src/engine.cpp:312-323 | the per-stop searches and running minimum find the leftmost place any non-empty stop occurs |
| Stops.StopPrefixHoldback | src/engine.cpp:273-290 | the longest-first search finds the longest suffix that is a proper prefix of a stop |
| StreamFilters.StreamFilter.PushPiece | src/engine.cpp:308-350 | new pending bytes, chunk offered and status are those of the specified push |
| StreamFilters.StreamFilter.FlushPending | src/engine.cpp:352-364 | new pending bytes and chunk offered are those of the specified flush |
| StreamFilters.StopBeginsInHeldBytes | src/engine.cpp:312-313 | a stop completed by a new piece begins in it or in the bytes withheld before it, never in delivered bytes |
| StreamFilters.HoldBeginsInHeldBytes | src/engine.cpp:336-340 | what must be withheld after a piece begins in it or in what was withheld before it |
| StreamFilters.MatchInBuffer | src/engine.cpp:314-325 | searching the pending bytes alone finds the leftmost stop of the whole text |
| StreamFilters.PushesFollowText | src/engine.cpp:308-350 | for all stops, receivers and pieces: what is withheld and delivered is a function of the whole text, up to the first push that stops or is refused |
| FilterTheorems.NothingAfterRefusal | src/engine.cpp:330-346 | the receiver gets non-empty chunks only and is never called again once it declined or threw; Cancelled exactly when it declined |
| FilterTheorems.PendingIsHeldSuffix | src/engine.cpp:336-343 | delivered and withheld bytes are the text; the withheld ones are the longest suffix either rule needs, at most three bytes or shorter than some stop |
| FilterTheorems.WithheldIsNeeded | src/engine.cpp:336-343 | what is withheld is a truncated character, or some next piece makes a stop of it and stops the run with none of it delivered |
| FilterTheorems.StopsAtFirst | src/engine.cpp:312-334 | an uncut run stops exactly when the text has a stop, at the first push with which it does, with the leftmost stop past all delivered bytes |
| FilterTheorems.FlushIsOffline | src/engine.cpp:352-364 | with no stop, on arbitrary bytes, pushes and flush deliver the text less its own truncated tail |
| FilterTheorems.StopIsOfflineIff | src/engine.cpp:325-333 | a stopped run delivered the offline cut of what it read if and only if no delivered byte lies in the character that cut truncates |
| FilterTheorems.StopIsOffline | src/engine.cpp:325-333 | on text that is UTF-8 so far, with stops that split no character, it always did |
| FilterTheorems.NoStopIsOffered | src/engine.h:130-133 | for any bytes, stops, splitting and receiver, what was offered never contains a stop, before the flush and after it |
| FilterTheorems.PushCallsIff | src/engine.cpp:308-350 | a push calls the receiver, once, exactly when the text lets more be delivered than before it |
| FilterTheorems.EmptyPieceIsQuiet | src/engine.cpp:336-346 | an empty piece changes nothing and calls nobody |
| FilterTheorems.QuietPieces | src/engine.cpp:336-346 | a receiver is not called for at most three non-empty pieces in a row, or fewer than some stop has bytes |
| FilterTheorems.ChunksAreUtf8 | src/engine.cpp:292-294 | if no stop splits a character, every chunk for any receiver, at a holdback, before a match or flushed, is valid UTF-8 by itself |
| Chunking.ChunksAreUtf8Iff | src/engine.cpp:292-294 | chunks of every text that is UTF-8 so far are always valid UTF-8 if and only if no stop splits a character, a finite condition on the stops |
| Chunking.FilterIsOffline | src/engine.cpp:308-364 | any splitting delivers exactly the offline cut of the whole text, and stops if and only if it has a stop |
| Chunking.ChunkingIndependenceIff | src/engine.cpp:308-364 | for UTF-8 stops, splitting never shows if and only if no stop is recognised inside another before that one is complete |
| Chunking.RefusalOnlyTruncates | src/engine.cpp:366-370 | a refusing receiver gets a prefix of the chunks an accepting one gets |
| FilterExamples.NestedStopsShow | src/engine.cpp:308-350 | with the stops `abcdef` and `cd`, `abcdef` delivers nothing in one push and `ab` byte by byte |
| FilterExamples.StopInsideCharacter | src/engine.cpp:275-290 | a stop beginning with a continuation byte makes a chunk of valid text invalid |
| FilterExamples.MalformedText | src/engine.cpp:325-333 | on malformed text the online cut and the offline cut differ |
| KvCache.ReusablePrefix | src/engine.cpp:786-796 | the loop computes the longest common prefix, capped one short of the prompt: also for a prompt the record already begins with |
| KvCache.KeepPrefixAgrees | src/engine.cpp:655-669 | whatever the memory answers, record and memory agree again and hold a prefix of the prompt |
| KvCache.KeptIff | src/engine.cpp:655-669 | something is kept exactly when the prompt has more than one token, the record begins with its first, and the memory trims and still holds position 0; then it is the longest common prefix that leaves a token to decode |
| KvCache.DecodeAgrees | src/engine.cpp:671-688 | agreement survives success, failure and exception; success leaves the logits of the whole record |
| KvCache.ExtensionKeepsAll | src/engine.cpp:659-669 | a prompt strictly extending the record keeps all of it whenever the memory trims and still holds position 0 |
| EngineObject.LlamaEngine.KeepPromptPrefix | src/engine.cpp:659-669 | record, memory and result are those of the specified trim |
| EngineObject.LlamaEngine.DecodeTokens | src/engine.cpp:674-688 | record, memory and result are those of the specified decode |
| EngineObject.LlamaEngine.DecodePrompt | src/engine.cpp:1035-1043 | the batch loop is the specified prefill |
| EngineObject.LlamaEngine.RunGenerate | src/engine.cpp:999-1116 | the whole call, with its endless loop, terminates and is the specified generation |
| GenerationTheorems.PrefillCoversPrompt | src/engine.cpp:1035-1043 | the batches are all of n_batch tokens but for a last one of no more, none is empty, and laid end to end they are the prompt from the kept prefix on |
| GenerationTheorems.LoopRefinesPure | src/engine.cpp:1055-1106 | the cached loop ends as the loop that recomputes everything; what the cache then holds; a failed decode leaves it empty |
| GenerationTheorems.GenerateRefinesPure | src/engine.cpp:999-1116 | from any cache that agrees with its record: it agrees afterwards, a refused request changes nothing, and with no failed decode the client sees the cache-free generation |
| RunTheorems.GenerateFeeds | src/engine.cpp:1068-1112 | chunks are the filter's output for exactly the counted tokens' text; Stop and Cancelled exactly when the filter says so |
| RunTheorems.GenerateAsksWhileAccepted | src/engine.cpp:1070-1112 | however it ends, the callback is never called again after refusing, and its exceptions are not lost |
| RunTheorems.GenerateExplained | src/engine.cpp:1055-1106 | in every outcome, failed decodes included, each token is the sampler's choice for the sequence before it and none ends the turn; there was room before the last; Length and Eog are never reported without cause |
| RunTheorems.GenerateEndsIff | src/engine.cpp:1055-1112 | with no failed decode, every ending both ways: Stop and Cancelled as the pushes say, Length without room, Eog with room and an end-of-generation token, an exception only from the sampler, the rendering or the receiver; flushed exactly when the filter went on |
| RunTheorems.GenerateFails | src/engine.cpp:1035-1106 | a failed prompt batch is an exception whatever its code; a failed later decode is that of the last token, and ends by Length if the code is positive and the flush does not throw, else by an exception |
| RunTheorems.OthersAreRefused | src/engine.cpp:1001-1027 | an embedding model, an untokenizable, empty or too long prompt and a bad sampler configuration throw with nothing changed |
| RunTheorems.GenerateKeeps | src/engine.cpp:1029-1032 | what is kept is the longest shared prefix leaving a token to decode, and something is kept exactly when there is one and the memory vouches for it |
| RunTheorems.CompletionBounds | src/engine.cpp:1056-1092 | in every outcome completion_tokens is at most n_ctx_seq - prompt_tokens + 1, and at most a non-negative max_tokens |
| RunTheorems.ContextBoundIsReached | src/engine.cpp:1088-1092 | an unlimited generation that ends by length reaches that bound exactly |
| RunTheorems.CacheFits | src/engine.cpp:1088-1092 | the cache never outgrows the context |
| RunTheorems.ReplyObeysGrammar | src/engine.cpp:474-474 | if accepting a token the grammar does not allow throws, every token of every reply is allowed, for every chain, sampled or greedy, and every outcome |
| RunTheorems.GreedyReplyIsBestAllowed | src/engine.cpp:469-474 | and a greedy one consists of tokens none allowed there is more likely than |
| RunTheorems.RecordAlwaysAgrees | src/engine.cpp:634-637 | the record agrees with the memory after any sequence of requests, whatever became of each |
| RunTheorems.WarmEqualsCold | src/engine.h:185-189 | after any requests, a request without failed decodes shows what it shows after clearing the cache |
| RunTheorems.NextTurnDecodesOnlyNewTokens | docs/design.md:23-27 | whatever reason a turn finished for, the next one keeps all the cache then holds and the batches it decodes are exactly the rest |
| RunTheorems.GenerateIsOffline | src/engine.h:130-134 | a finished generation nobody refused delivered the text of its tokens up to the first stop, less a truncated character, nested stops included; Stop exactly when that text has one |
| RunTheorems.NoStopIsGenerated | src/engine.h:130-133 | however a generation ends, what it offered never contains a stop |
| RunTheorems.GeneratedChunksAreUtf8 | src/engine.h:130-134 | however a generation ends, every chunk it offered is valid UTF-8 by itself |
| Locking.LockFreeMeansAgreement | src/engine.cpp:632-688 | under every interleaving of single writes, the record is what the memory holds whenever the lock is free |
| Locking.DecodeByWrites | src/engine.cpp:674-688 | the writes of one decode compose to the specified decode |
| Locking.KeepPrefixByWrites | src/engine.cpp:650-669 | the writes of one trim compose to the specified trim |
| Serialization.GenerateByWrites | src/engine.cpp:1005-1106 | the writes of a whole generation compose to the specified generation |
| Serialization.ConcurrentCallsAreServed | src/engine.h:146-147 | in every history of arriving, waiting and running threads the engine is what serving the calls whole, in lock order, leaves; a waiting thread can enter whenever the lock is free, a lock holder can always go on |
| Serialization.NoCallIsLost | src/engine.h:185-185 | in every history, as many calls wait, run or have been served as have arrived, and they are calls that arrived |
| Serialization.ConcurrentCallsShowPure | src/engine.h:185-189 | in every such history, a call none of whose own decodes fails shows its client the cache-free generation |
| ChatStreams.ChatStream.Push | src/chat_format.cpp:375-382 | new state and returned text are those of the specified push |
| ChatStreams.ChatStream.Finish | src/chat_format.cpp:384-422 | new state, tail and calls are those of the specified finish |
| ChatStreams.EmittedIsShown | src/chat_format.cpp:337-352 | for every parser, returned text adds up to `emitted`, which only grows and always is the content of some partial parse |
| ChatStreams.PushReturns | src/chat_format.cpp:342-351 | for every parser and every push: if the parse so far is accepted with content properly extending all returned before, the rest of that content is returned, else nothing |
| ChatStreams.ShownKeepsUp | src/chat_format.cpp:335-351 | with a parser that never takes content back, after every push the client has the content of the last accepted non-empty parse |
| ChatStreams.AcceptedFinishIff | src/chat_format.cpp:384-404 | after an accepted final parse everything seen is its content if that extends what was shown, and what was shown otherwise |
| ChatStreams.VisibleIsFinalContentIff | src/chat_format.cpp:337-351 | the visible text is the final content for every chunking if and only if no partial parse showed something else |
| ChatStreams.RejectedFinish | src/chat_format.cpp:390-404 | after a rejected one it is the raw output from the first occurrence of the shown text on, or nothing more; no calls |
| ChatStreams.CallsAreFinalIff | src/chat_format.cpp:330-335 | the final parse's calls are reported, all or none, if and only if it is not empty or the last non-empty partial parse had none to report |
| ChatStreams.FinishReports | src/chat_format.cpp:384-421 | what is reported is a function of the parser and the texts pushed: all of the final, or last recorded, calls or none |
| ChatStreams.ReportedCallByCall | src/chat_format.cpp:406-421 | call by call, in order: own name, own arguments or `{}` for none; all if each has a name and valid JSON, else none |
| ChatStreams.StaleCallsAreReported | src/chat_format.cpp:330-332 | an empty final parse can report calls of an earlier one |
| ChatStreams.CallsAreWhole | src/chat_format.cpp:94-109 | every reported call has a name and valid JSON arguments |
| ChatStreams.ArgumentsAreObjectsIff | src/chat_format.cpp:104-109 | what is reported are objects if and only if one of the calls is incomplete or all their given arguments are objects |
| ChatStreams.NumberIsReported | src/chat_format.cpp:104-109 | a call whose arguments are a number is reported unchanged |
| ChatUtf8.FinishIsUtf8 | src/chat_format.cpp:384-404 | the tail, that of a rejected final parse included, is valid UTF-8 if the parser makes valid UTF-8 of valid UTF-8 |
| Wire.FinishChunk | src/wire.cpp:92-106 | calls are sent exactly when they are the reason, which only a completed generation can have; every other reason is the engine's |
| Wire.MakeFinishChunk | src/wire.cpp:92-106 | the chunk filled in place is that one |
| Service.StreamObject.HandleChunk | src/service.cpp:97-120 | wire, client_gone and parser state after one callback are the specified ones |
| Service.StreamObject.Close | src/service.cpp:124-141 | and so after the poll, the chat tail and the finish chunk |
| Service.StreamObject.Run | src/service.cpp:85-147 | the whole stream is the specified composition of engine, parser and wire |
| ServiceTheorems.WireShape | docs/protocol.md:61-73 | non-empty text chunks, then one finish chunk attempted exactly when the client is not known to be gone; nothing after a failed write; one poll for each chunk and one more; never a CANCELLED finish; calls exactly with TOOL_CALLS |
| ServiceTheorems.StreamWrites | src/service.cpp:97-141 | every write attempted, in every ending and to every client: the visible texts of the chunks read before a poll found the client gone, and unless it is gone after one more poll the tail and the finish chunk |
| ServiceTheorems.FinishSays | src/service.cpp:138-141 | end to end: TOOL_CALLS exactly with calls, otherwise EOG, LENGTH or STOP exactly as the engine ended; the counts of prompt, completion and cached tokens; no calls for Generate |
| ServiceTheorems.ErrorShape | proto/llamad/v1/llamad.proto:15-17 | after an engine error there is no finish chunk and nothing follows a failed write |
| ServiceTheorems.StreamCarriesText | proto/llamad/v1/llamad.proto:17-18 | a stream that reached its finish chunk carried exactly the offline text of its tokens, or the chat parser's content of it, nested stops included |
| ServiceTheorems.ChatStreamCarries | src/chat_format.cpp:384-404 | for every parser and any bytes, a finished Chat stream carried the raw output from where the shown text first occurs if the final parse was rejected, and otherwise its content if and only if that extends what was shown |
| ServiceTheorems.NoStopIsWritten | proto/llamad/v1/llamad.proto:17-18 | no text of a Generate stream, finished, cancelled or failed, is part of a stop |
| ServiceTheorems.PollsPerChunk | src/service.cpp:108-112 | the callback polls once for every chunk it is given |
| ServiceTheorems.PollsAreSoon | src/service.cpp:108-112 | at most three tokens with text, or fewer than some stop has bytes, pass between two polls |
| ServiceTheorems.WrittenTextIsUtf8 | docs/protocol.md:65-67 | every text chunk ever written, for Generate and Chat, finished, cancelled or failed, is valid UTF-8 by itself |
| ServiceTheorems.FinishCarriesWholeCalls | docs/protocol.md:99-104 | every call in a finish chunk has a name and valid JSON arguments |
| ServiceTheorems.FinishCarriesFinalCalls | src/service.cpp:128-138 | the calls in a finish chunk are those the chat parser reports, and none unless the turn was completed |
| ServiceTheorems.FinishSendsObjectsIff | docs/protocol.md:97-102 | the arguments sent are objects exactly when the calls up for reporting are, or none is sent |
| ServiceTheorems.StreamsAreStateless | proto/llamad/v1/llamad.proto:11-14 | whatever was served before, the same request writes the same chunks, up to the count of cached tokens |
| Sampling.SamplerChain.ChooseToken | src/engine.cpp:541-570 | the three ways to fill the candidates, the grammar and the chain compose to the specified choice |
| Sampling.SamplerChain.SampleToken | src/engine.cpp:442-460 | check, retry behind the grammar and accept, which may throw, are the specified sampling |
| Sampling.GreedyAgrees | src/engine.cpp:469-471 | greedy check-then-retry always chooses what choosing behind the grammar would |
| Sampling.SampledGreedily | src/engine.cpp:442-460 | greedy: the first of the most likely behind the grammar, if the grammar accepts it |
| Sampling.SampledIsSelected | src/engine.cpp:442-570 | any other chain: what it selects of the k highest logits, kept if allowed, else what it selects of the k highest behind the grammar, if the grammar accepts it |
| Sampling.GreedyIsBestAllowed | src/engine.cpp:469-471 | that is the first of the most likely allowed tokens, if an allowed one is possible |
| Sampling.GreedyObeysGrammarIff | src/engine.cpp:445-456 | the choice is allowed if and only if some allowed token is possible or token 0 is allowed |
| Sampling.RefusedTokenIsPicked | src/engine.cpp:445-456 | logits and a grammar for which the retry picks the refused token 0, and sampling then throws if the grammar does not accept it |
| Sampling.PickObeysGrammar | src/engine.cpp:471-474 | where an allowed token is possible, a picked one is allowed, if the chain selects a possible candidate from every list that holds one |
| Sampling.PreselectionAgrees | src/engine.cpp:476-481 | for every top-k setting and tie-breaking, what is left of the preselected candidates has, rank by rank, the logits of what is left of the whole vocabulary, and its tokens unless logits tie |
| Sampling.ShortcutAgrees | src/engine.cpp:476-481 | so the chosen token is that chosen from the whole vocabulary: always when greedy, for distinct logits otherwise |
| SplitList.Split | src/engine_flags.h:68-83 | the loop is the specified split |
| SplitList.SplitInvertsJoin | src/engine_flags.h:66-67 | it fails exactly on an empty field; otherwise its parts are proper, join back to the text, and are the only such list |
| SplitList.SplitOfJoin | src/engine_flags.h:66-83 | it recovers any non-empty list of proper parts from what joins them |

## Left out

- llama.cpp, ggml and its `common` library: tokenizer, decode, templates, PEG parsers, grammar engine and JSON acceptance are functions with no more contract than stated above; none of them is part of this model.
- Bit-level differences of logits between batch splits, which the program disclaims; timings, thread counts and logging.
- Tool-call ids, which are random and assigned by library code.
- Service.StreamObject.Run: gives the engine its callback as a function of the chunks handed over and then makes the same calls on its own object, so the interleaving of wire writes with decodes is not visible; nor are the gRPC status and the log line.
- Sampling.SamplerChain.ChooseToken: takes `partial_sort_copy` and top-k as any functions that return k highest, and the rest of the chain as any function of the candidates; NaN logits and the sampled distribution under a grammar are not modelled.
- The rest of `src/service.cpp` and `src/wire.cpp` (field copying, Tokenize, GetModelInfo), rendering of prompts, trigger splitting and regex escaping: easy members or thin library wrappers.
- `Engine::embed`, device listing, offload selection, tensor splits and the constructor's context setup: backend queries and simple checks. The record is unused by an embedding model, which `generate` turns away.
- `src/main.cpp`: sockets, signals and process lifecycle.
