# Feather: a verified model

Feather is an asynchronous agent runtime. Most of it moves data between services; this project models the parts that
are protocol, parsing and bookkeeping, and proves what they keep over every input, every run and every interleaving.

Each module follows one source file or component:

- **Streams.** `SseFraming` holds the byte level that both event-stream parsers share (sections 9.2.5 and 9.2.6 of the
  WHATWG HTML Living Standard, implemented in part). `OpenRouterSse` and `ClaudeSse` are the two parsers, `ToolCalls` and
  `ClaudeBlocks` the accumulators behind them, `OpenRouterStream` and `ClaudeStream` one whole attempt, and
  `OpenRouterRetries` the attempt loop with its fallback model. `JsonText` is what they share about decoded arguments.
  The central theorem says that chunking is irrelevant to the frames exactly for the streams without CR CR LF.
- **Mailbox.** `Mailbox` is the message table and its transactions; `MailboxRuns` relates every run to a family of bounded
  drop-oldest queues.
- **Catalog.** `Chains` is about parent chains over a finite table; `Catalog` shows that in-place resolution is the fold of
  each original chain, in every iteration order.
- **Interleavings.** `MessagingStore` and `Router` are the messaging front end; `Cli` is the reader, the driver and the
  watcher of the command line; `Cron` and `CronRuns` are the cron store, whose calls read a job in one step and write it in
  a later one. A step is the code between two suspension points.
- **Chunks.** `Chunker` packs words and `TokenChunks` cuts windows.
- **Configuration.** `Overlay` is merging, writing, deleting and looking up YAML layers. `DotEnv` and `DotEnvRoundTrip` are
  writing and loading `.env` files.
- **Supporting parts.** `Timestamps` (with `StringOrder`), `Schemas`, `ClaudeTranslation`, `OpenRouterTranslation`
  and `LogTriage`. `Text` has the string operations.

Where the source changes state, the model has a class or a method with a loop, proved against a function, and lemmas about
that function. Protocols with several actors are state machines over explicit steps.

## What the proofs found

The model follows the code where it and its own documentation differ.

- A chunk boundary behind CR CR LF changes the frames of both parsers (`SseFraming.ChunkInvariance` is an equivalence), and
  when it closes a line that decodes to an event also the events.
- The comment in `openrouter_provider.py` at line 584 says that a timeout implies an empty stream. It does not: the idle
  timer restarts at every chunk, so a stall after text is retried and the text is shown twice
  (`OpenRouterRetries.TurnIsShownOnceIff`).
- `mark_delivered` returns the number of ids, not of rows changed; a message may answer itself.
- A provider name with a colon can make a sound catalog entry look cyclic (`Catalog.EveryOrderResolvesIff`).
- Two concurrent first messages of a chat can leave a run outside the stored session; pruning can admit a second handler,
  and after that even a handler for a message that has succeeded.
- A typed wake sentinel is taken for a wake, although the comment says that this cannot happen.
- `_rewind_for_overlap` returns the largest suitable index where its docstring says the smallest, and repeats a word even
  with overlap 0.
- A null in an overlay hides a whole base branch until something below it is set; the service and the loader look up the
  layers in different orders.
- Overlapping calls of the cron store overwrite each other: a rename can make a one-time job that just ran due again
  (`CronRuns.CompletedStaysIff` has the exact condition). Even without overlaps a failed dispatch activates a paused job,
  and a completed recurring job regains a next run.
- A value with a line boundary written to a `.env` file spills bindings of other keys (`DotEnvRoundTrip.WrittenBindings`).
- Sanitising a schema drops a tool property that is called like a numeric keyword. It is idempotent exactly when no walked
  type list consists, nulls aside, of a single list that would itself be narrowed (`Schemas.IdempotentIffSettled`).
- The log triage bot remembers every new error but lists only the first few, so the rest is never shown.
- Without a final chunk, tool arguments that hold a `raw_arguments` key of their own are taken for undecodable ones.

## Checking

`dafny verify dfyconfig.toml` checks the whole project with Dafny 4.11.

## Model

| member | source | states |
|---|---|---|
| `SseFraming.CutIsTheMinimalFraming` | `src/feather/providers/openrouter_provider.py:129-133` | `Cut` is the only reading of the buffer as frames in which every frame ends at its first blank line and no byte is lost or invented |
| `SseFraming.ChunkInvariance` | `src/feather/providers/openrouter_provider.py:122-133` | every cutting of a byte stream into chunks gives the frames and the leftover of the one-shot parse, if and only if the stream holds no CR CR LF |
| `SseFraming.NormaliseTwice` | `src/feather/providers/openrouter_provider.py:129-129` | normalising CR LF in a prefix before more bytes arrive changes nothing, without CR CR LF |
| `SseFraming.NormaliseCleans` | `src/feather/providers/openrouter_provider.py:129-129` | without CR CR LF one normalising pass leaves no CR LF behind |
| `SseFraming.CrLfBecomesLf` | `src/feather/providers/openrouter_provider.py:129-129` | the bytes 13 10 become 10 wherever they stand, and bytes without them stay |
| `SseFraming.FeedAfterCut` | `src/feather/providers/openrouter_provider.py:122-133` | feeding the leftover of a cut continues exactly as if everything had been cut at once, a CR LF or LF LF split across chunks included |
| `SseFraming.FramesOnlyGrow` | `src/feather/providers/openrouter_provider.py:122-133` | frames once complete are never revised by later bytes, for every stream |
| `SseFraming.SplitAfterCrCrLf` | `src/feather/providers/openrouter_provider.py:122-133` | a chunk boundary right after any CR CR LF gives a result different from the one-shot parse |
| `SseFraming.CrCrLfClosesEarly` | `src/feather/providers/openrouter_provider.py:122-133` | the concrete family: a line closed by LF CR CR LF stays open in one pass and closes at the next chunk |
| `OpenRouterSse.SseParser.Feed` | `src/feather/providers/openrouter_provider.py:122-157` | one `feed`: the decodable payloads of the complete frames in order, up to the first `data: [DONE]` line, the bytes left, and nothing at all once stopped |
| `OpenRouterSse.ReadFrame` | `src/feather/providers/openrouter_provider.py:134-157` | the line loop of one frame yields exactly the payloads before the sentinel |
| `OpenRouterSse.LineEventsAre` | `src/feather/providers/openrouter_provider.py:136-157` | a line `data: [DONE]` stops, any other that opens with `data: ` yields its rest when that is JSON, and every other line yields nothing |
| `OpenRouterSse.PayloadsBeforeSentinel` | `src/feather/providers/openrouter_provider.py:136-157` | a frame yields exactly the decodable payloads of its data lines before the first sentinel, and stops exactly there |
| `OpenRouterSse.FeedEachIsFramewise` | `src/feather/providers/openrouter_provider.py:122-157` | successive feeds yield what reading all their frames in order yields, stopping at the sentinel |
| `OpenRouterSse.EventsIgnoreChunking` | `src/feather/providers/openrouter_provider.py:122-164` | for a stream without CR CR LF every chunking yields the events and the stop flag of `parse_sse_events` |
| `OpenRouterSse.NothingAfterDone` | `src/feather/providers/openrouter_provider.py:146-148` | bytes after `[DONE]` change nothing; before it, events are only appended |
| `OpenRouterSse.CrCrLfChangesEvents` | `src/feather/providers/openrouter_provider.py:122-164` | any event line closed by LF CR CR LF is yielded with a chunk boundary behind it and held back without |
| `OpenRouterSse.DataLineChangesEvents` | `src/feather/providers/openrouter_provider.py:122-164` | every line that decodes to one JSON payload other than the sentinel is such an event line |
| `OpenRouterSse.AsciiLineChangesEvents` | `src/feather/providers/openrouter_provider.py:122-164` | so with an ASCII decoder that accepts every payload the events change for every printable payload but the sentinel |
| `ClaudeSse.SseParser.Feed` | `src/feather/providers/claude_provider.py:111-147` | one `feed`: for each complete frame whose data values, joined by newlines, decode, one event under the last event name, and the bytes left |
| `ClaudeSse.ReadFrame` | `src/feather/providers/claude_provider.py:119-147` | the line loop yields the event of the last name and the joined data, or nothing without data that decode |
| `ClaudeSse.EventsIgnoreChunking` | `src/feather/providers/claude_provider.py:111-165` | for a stream without CR CR LF every chunking yields the one-shot named events |
| `ClaudeSse.FieldsAre` | `src/feather/providers/claude_provider.py:121-135` | an event has the last name and all the data values of its frame, in order |
| `ClaudeSse.FrameYields` | `src/feather/providers/claude_provider.py:119-147` | a frame yields one event exactly when it has data and the joined values decode, named by its last `event:` line or else "message" |
| `ClaudeSse.NamedEventIsYielded` | `src/feather/providers/claude_provider.py:119-147` | a frame of an `event:` line and two data lines yields the two values joined, under that name |
| `ClaudeSse.OtherLinesAreIgnored` | `src/feather/providers/claude_provider.py:124-137` | comments, blank lines and unknown fields never influence an event |
| `ClaudeSse.CrCrLfChangesEvents` | `src/feather/providers/claude_provider.py:111-165` | the same counterexample family as for OpenRouter |
| `ClaudeSse.DataLineChangesEvents` | `src/feather/providers/claude_provider.py:111-165` | every line that decodes to one JSON data value is such an event line |
| `ClaudeSse.AsciiLineChangesEvents` | `src/feather/providers/claude_provider.py:111-165` | so with an ASCII decoder that accepts every payload the events change for every printable value |
| `ToolCalls.ReconstructToolCalls` | `src/feather/providers/openrouter_translator.py:652-684` | the slot loop yields one call for each index, in ascending order, with its first id that is not empty, its first such name, and what its joined argument text stands for |
| `ToolCalls.CallsAreRebuilt` | `src/feather/providers/openrouter_translator.py:668-684` | so for the closed form: JSON text gives its value, no text the empty object, other text itself as `raw_arguments` |
| `ToolCalls.CallsIgnoreInterleaving` | `src/feather/providers/openrouter_translator.py:652-684` | rebuilt calls depend only on each index's own subsequence of fragments |
| `ToolCalls.CallsIgnoreSplitting` | `src/feather/providers/openrouter_translator.py:652-666` | splitting an argument fragment in two, with fragments of other indices between the parts, changes no call |
| `OpenRouterStream.ConsumeStream` | `src/feather/providers/openrouter_provider.py:617-830` | the chunk and event loops, stopping at the first error, compute the outcome of the parsed events |
| `OpenRouterStream.OutcomeIgnoresChunking` | `src/feather/providers/openrouter_provider.py:617-830` | how the network cuts the stream cannot change the turn or the error, without CR CR LF |
| `OpenRouterStream.TurnIsTheStream` | `src/feather/providers/openrouter_provider.py:665-795` | a turn holds all the text and all the tool calls its events carry, and the final chunk's id or else the last id seen |
| `OpenRouterStream.TextIsEmitted` | `src/feather/providers/openrouter_provider.py:676-687` | the turn text is the in-order concatenation of the text pieces handed to the event handler |
| `OpenRouterStream.RetryOnlyBeforeOutput` | `src/feather/providers/openrouter_provider.py:843-867` | a retry after a mid-stream error is raised only on a transient status with no text and no tool call before it |
| `OpenRouterStream.FirstToRaiseDecides` | `src/feather/providers/openrouter_provider.py:843-867` | the first event that raises ends the stream: for a retry exactly when it reports 502, 503, 504 or 524 and nothing before it carried text or a tool call |
| `OpenRouterStream.TurnWithoutFinalChunk` | `src/feather/providers/openrouter_provider.py:701-789` | exactly when a stream without a final chunk is accepted: every index has a name and JSON arguments without `raw_arguments`, or there is text and no call |
| `OpenRouterRetries.StreamAttempts` | `src/feather/providers/openrouter_provider.py:520-601` | the attempt loop returns the first final ending, a transport error included, having shown the text of every attempt so far |
| `OpenRouterRetries.RefusedEnds` | `src/feather/providers/openrouter_provider.py:534-556` | a refusal is retried when its status allows it |
| `OpenRouterRetries.RaisingStreamEnds` | `src/feather/providers/openrouter_provider.py:557-581` | a stream that raises is retried when the first event that raises allows it |
| `OpenRouterRetries.QuietStreamEnds` | `src/feather/providers/openrouter_provider.py:582-601` | any other stream ends in a timeout, which is retried, in a transport error, which is not, or in its outcome |
| `OpenRouterRetries.TurnTextIsShown` | `src/feather/providers/openrouter_provider.py:617-830` | a returned turn holds exactly the text its own attempt showed |
| `OpenRouterRetries.OnlyTimeoutsRepeatText` | `src/feather/providers/openrouter_provider.py:843-867` | an attempt retried for any reason but a timeout has shown no text |
| `OpenRouterRetries.NothingIsShownTwiceIff` | `src/feather/providers/openrouter_provider.py:582-600` | within one budget the user sees the turn's text exactly once if and only if no attempt that timed out had shown text |
| `OpenRouterRetries.StreamOneTurn` | `src/feather/providers/openrouter_provider.py:448-518` | the budget of the fallback model follows a primary budget that ended in a timeout, and nothing else |
| `OpenRouterRetries.FallbackExtends` | `src/feather/providers/openrouter_provider.py:448-518` | the two budgets behave as one longer budget |
| `OpenRouterRetries.TurnIsShownOnceIff` | `src/feather/providers/openrouter_provider.py:448-601` | over both budgets the text is seen exactly once if and only if no timed-out attempt of either model had shown text |
| `OpenRouterRetries.StalledTextIsShownTwice` | `src/feather/providers/openrouter_provider.py:582-600` | a stall after text followed by a clean retry shows the text twice, against the comment at line 584 |
| `ClaudeBlocks.Accumulator.Absorb` | `src/feather/providers/claude_provider.py:384-465` | after every event the blocks, buffers, text, id and usage are those the whole history determines |
| `ClaudeBlocks.Accumulator.StartBlock` | `src/feather/providers/claude_provider.py:402-410` | starting a block pads with placeholders up to its index and changes no other block |
| `ClaudeBlocks.Accumulator.StopBlock` | `src/feather/providers/claude_provider.py:444-458` | stopping a tool block takes its buffer away and leaves what the text stands for as input |
| `ClaudeBlocks.PaddingIsBare` | `src/feather/providers/claude_provider.py:405-407` | a position that is only padded holds a block without a type |
| `ClaudeBlocks.BlockIgnoresOtherIndices` | `src/feather/providers/claude_provider.py:402-457` | once started, a block depends only on the events of its own index |
| `ClaudeBlocks.CompletedBlock` | `src/feather/providers/claude_provider.py:412-457` | a started, filled and stopped block holds its joined text and, for a tool call, id, name and what its joined fragments stand for |
| `ClaudeBlocks.StartDecides` | `src/feather/providers/claude_provider.py:402-417` | the events of one index determine its block, whatever they are interleaved with, if and only if they hold a start |
| `ClaudeBlocks.OutputTextIsAllText` | `src/feather/providers/claude_provider.py:412-423` | `output_text` is the concatenation of all text deltas if and only if none came before its position existed |
| `ClaudeStream.ConsumeStream` | `src/feather/providers/claude_provider.py:350-483` | the chunk and event loops, up to the stop or the first error, compute the outcome of the one-shot events |
| `ClaudeStream.OutcomeIgnoresChunking` | `src/feather/providers/claude_provider.py:350-483` | how the network cuts the stream cannot change the turn or the error, without CR CR LF |
| `ClaudeStream.NothingAfterStop` | `src/feather/providers/claude_provider.py:384-465` | bytes after `message_stop` or after an error change nothing |
| `ClaudeStream.ReconstructToolCalls` | `src/feather/providers/claude_translator.py:649-675` | the loop yields the tool blocks in order, with id, name and coerced input |
| `JsonText.CoerceGivesObject` | `src/feather/providers/claude_translator.py:467-489` | coerced arguments are always an object; one that is there stays, text is decoded once more, anything else counts as empty |
| `ClaudeStream.TurnHoldsTheCalls` | `src/feather/providers/claude_provider.py:402-483` | when every block is started, filled and stopped, in any interleaving, the turn holds exactly the announced calls in index order, with the object their joined fragments decode to, `raw_arguments` when they do not decode, or the empty object |
| `Mailbox.AgentMessageStore.Send` | `src/feather/storage/agent_message_store.py:58-169` | one `send`: which arguments raise; a full inbox expires its oldest pending row, every question under the named correlation id, pending or delivered, is answered now, and no other row changes |
| `Mailbox.AgentMessageStore.Inbox` | `src/feather/storage/agent_message_store.py:171-198` | a prefix of the recipient's pending rows, oldest first, of exactly the clamped length |
| `Mailbox.AgentMessageStore.MarkDelivered` | `src/feather/storage/agent_message_store.py:200-224` | delivers exactly the pending rows named, now, and returns the number of ids passed that are not empty |
| `Mailbox.AgentMessageStore.PendingCount` | `src/feather/storage/agent_message_store.py:226-246` | the queue length, never above the cap |
| `Mailbox.AgentMessageStore.ClaimReply` | `src/feather/storage/agent_message_store.py:266-338` | delivers exactly the oldest pending reply of the recipient, if there is one, and returns the row as it then stands |
| `Mailbox.CapDropsTheOldest` | `src/feather/storage/agent_message_store.py:340-390` | cap enforcement drops the head of the addressed queue when it is full and touches no other queue |
| `Mailbox.SendIs` | `src/feather/storage/agent_message_store.py:91-140` | what a `send` makes of each row |
| `Mailbox.ClaimIs` | `src/feather/storage/agent_message_store.py:284-326` | what a claim makes of each row |
| `Mailbox.SendRefinesQueue` | `src/feather/storage/agent_message_store.py:91-140` | `send` appends to a bounded drop-oldest queue and removes the questions it answers |
| `Mailbox.DeliverRefinesQueue` | `src/feather/storage/agent_message_store.py:200-224` | delivering removes the named rows from every queue and keeps the order |
| `Mailbox.SendKeeps` | `src/feather/storage/agent_message_store.py:91-140` | order, distinct ids and the bound survive a `send` |
| `MailboxRuns.RunsStayBounded` | `src/feather/storage/agent_message_store.py:340-390` | in every reachable table no inbox holds more pending rows than the cap |
| `MailboxRuns.TableRefinesQueues` | `src/feather/storage/agent_message_store.py:58-338` | in every reachable table the pending rows of each recipient are a bounded drop-oldest queue driven by the same operations |
| `MailboxRuns.StepRefinesQueue` | `src/feather/storage/agent_message_store.py:58-338` | one transaction on the table is one step on every abstract queue |
| `MailboxRuns.ClaimRefinesQueue` | `src/feather/storage/agent_message_store.py:266-338` | a claim removes one reply from one queue |
| `MailboxRuns.RunsEvolve` | `src/feather/storage/agent_message_store.py:58-338` | rows are never rewritten, and statuses move only PENDING to DELIVERED, RESPONDED or EXPIRED and DELIVERED to RESPONDED |
| `MailboxRuns.FinalStatusesStay` | `src/feather/storage/agent_message_store.py:91-140` | RESPONDED and EXPIRED are absorbing |
| `MailboxRuns.ExpiryIsOverflow` | `src/feather/storage/agent_message_store.py:340-390` | a row expires only as the oldest pending row of a full inbox that a send addresses |
| `MailboxRuns.OverlapExpiresDelivered` | `src/feather/storage/agent_message_store.py:357-380` | isolation is needed: a delivery between the read and the update of the cap makes a delivered row expire |
| `MailboxRuns.NoRowIsLost` | `src/feather/storage/agent_message_store.py:58-338` | the number of messages sent is the sum over the four statuses |
| `MailboxRuns.ClaimsAreExclusive` | `src/feather/storage/agent_message_store.py:284-326` | each message is returned by at most one claim of a run |
| `MailboxRuns.SendStoresPending` | `src/feather/storage/agent_message_store.py:91-140` | a message is stored as PENDING unless it asks for a response under its own `in_reply_to`, and only then flips itself |
| `MailboxRuns.DeliveredCountIsExact` | `src/feather/storage/agent_message_store.py:200-224` | the returned count is the number of rows changed if and only if the ids are distinct and all pending |
| `Catalog.ModelCatalog.ResolveOne` | `src/feather/config/model_catalog.py:256-292` | the recursive method and the table it leaves are the function `Resolve` |
| `Catalog.ModelCatalog.ResolveInherits` | `src/feather/config/model_catalog.py:249-253` | resolves in iteration order and stops at the first error; without colons in provider names it succeeds exactly when the markers of every entry lead to an unmarked one, and every entry then has its own fields and else those of the entry it names |
| `Catalog.ParentIs` | `src/feather/config/model_catalog.py:269-284` | no or a null marker means no parent, a marker that is no `provider:slug` string is malformed, and any other names the entry of that provider and slug, or dangles |
| `Catalog.ResolvesAlongMarkers` | `src/feather/config/model_catalog.py:231-292` | the same for every order, in terms of the markers alone |
| `Catalog.FoldIsNearest` | `src/feather/config/model_catalog.py:287-290` | the fold of a chain gives each field its nearest definition |
| `Catalog.ResolveIsFold` | `src/feather/config/model_catalog.py:256-292` | from any partly flattened table, success yields the fold of the original chain and only flattens further |
| `Catalog.ResolutionIsChainFold` | `src/feather/config/model_catalog.py:231-292` | for every order, resolution succeeds exactly when every chain is rooted and then leaves every entry as the fold of its original chain |
| `Catalog.ColonFreeHasNoAlias` | `src/feather/config/model_catalog.py:265-268` | provider names without a colon never alias in the visiting set |
| `Catalog.ClearUnlessAliased` | `src/feather/config/model_catalog.py:265-268` | the visiting set blocks a rooted chain exactly when the label of its start names one of its ancestors |
| `Catalog.AliasIsReportedAsCycle` | `src/feather/config/model_catalog.py:265-268` | such an entry is reported as a cycle although its chain is sound |
| `Catalog.EveryOrderResolvesIff` | `src/feather/config/model_catalog.py:249-253` | a catalog of rooted chains resolves in every order if and only if no label aliases |
| `Catalog.RootedUnlessBroken` | `src/feather/config/model_catalog.py:265-284` | a chain is rooted exactly when it is neither malformed, dangling nor cyclic |
| `Chains.RootedIff` | `src/feather/config/model_catalog.py:256-292` | over a finite table every chain that neither ends badly nor repeats reaches a root |
| `MessagingStore.Store.ClaimInbound` | `src/feather/messaging/store.py:243-269` | inserts a new key and says whether it was new |
| `MessagingStore.Store.PruneInboundOlderThan` | `src/feather/messaging/store.py:293-311` | removes exactly the older rows and counts them |
| `MessagingStore.Store.UpsertChatMapping` | `src/feather/messaging/store.py:196-228` | keeps a stored session, refreshes the name, returns the stored row |
| `MessagingStore.UpsertKeepsSessions` | `src/feather/messaging/store.py:196-228` | no upsert changes the session of a stored chat |
| `Router.StepKeepsInv` | `src/feather/messaging/router.py:111-197` | every step of every handler keeps exclusive claims, the active set and the session bookkeeping |
| `Router.AtMostOneHandler` | `src/feather/messaging/router.py:125-148` | a native message has at most one live handler, with its row in the table, unless a prune took the row of a live handler |
| `Router.NeverProcessedTwice` | `src/feather/messaging/router.py:125-148` | after success no other handler of a never pruned message is live or done |
| `Router.ProcessedUntilPruned` | `src/feather/messaging/router.py:125-148` | from a success until its row is pruned no handler takes the message up, provided no earlier prune took the row of a live handler |
| `Router.SuccessClosesIff` | `src/feather/messaging/router.py:125-148` | a success closes the message exactly when its row is present and no other handler is live |
| `Router.OpenIsTakenUp` | `src/feather/messaging/router.py:125-148` | a message that is not closed is being handled, or its next delivery is taken up |
| `Router.ReachesGate` | `src/feather/messaging/router.py:125-172` | a new message of a known chat is claimed and reaches the gate in the stored session |
| `Router.IdleSessionRuns` | `src/feather/messaging/router.py:178-197` | in an idle session it runs and is answered, and the session is active exactly meanwhile |
| `Router.BusySessionQueues` | `src/feather/messaging/router.py:173-185` | in a busy session it is queued once and nothing runs |
| `Router.UnknownChatCreates` | `src/feather/messaging/router.py:150-154` | a new message of an unknown chat is claimed and has a session created |
| `Router.FirstSessionIsStored` | `src/feather/messaging/router.py:154-161` | a new session is stored for the chat that had none |
| `Router.NewNameRenames` | `src/feather/messaging/router.py:162-165` | a message under a new display name is claimed and has the name stored |
| `Router.NameIsStored` | `src/feather/messaging/router.py:165-172` | the name is stored and the session stays |
| `Router.RedeliveryIsDuplicate` | `src/feather/messaging/router.py:125-131` | a redelivery changes nothing |
| `Router.FailureReleases` | `src/feather/messaging/router.py:132-148` | a failure gives session and row back, so that a redelivery is taken up |
| `Router.CancelKeepsRow` | `src/feather/messaging/router.py:132-148` | a cancelled handler gives its session back and keeps the row |
| `Router.OrphanedSuccessReopens` | `src/feather/messaging/store.py:271-311` | the proviso is needed: after a prune, a second handler that raises and releases, and the success of the first, a third handler claims the message without another prune |
| `Router.PruneAllowsSecondHandler` | `src/feather/messaging/store.py:293-311` | the condition is exact: from every reachable state in which a prune takes the row of a live handler, two live handlers of the message are reachable |
| `Router.LiveRowCanBePruned` | `src/feather/messaging/store.py:293-311` | such a state is reachable for every message |
| `Router.ActiveSessionsAreRuns` | `src/feather/messaging/router.py:178-195` | `_active_sessions` is exactly the set of sessions with a router-spawned run, one run each |
| `Router.StoredSessionNeverChanges` | `src/feather/messaging/store.py:196-228` | a stored chat keeps its session in every run |
| `Router.RunUsesStoredSessionIff` | `src/feather/messaging/router.py:150-172` | a run is in the stored session of its chat exactly when its handler did not create a session second |
| `Router.FirstMessagesCanDiverge` | `src/feather/messaging/router.py:154-161` | two first messages of one chat can reach a state with a run outside the stored session |
| `Cli.StepKeepsInv` | `src/feather/cli/__init__.py:229-444` | every step of reader, driver and watcher keeps the flags, the ledger of lines, the queue order and the single wake |
| `Cli.AwaitingMeansBusyAndEmpty` | `src/feather/cli/__init__.py:382-405` | at every suspension point awaiting implies busy and an empty answer queue |
| `Cli.TypedAnswerIsDelivered` | `src/feather/cli/__init__.py:281-297` | so the `QueueFull` branch is unreachable: a line typed while awaiting becomes the answer |
| `Cli.AnswerReachesTheRun` | `src/feather/cli/__init__.py:388-406` | the driver hands a delivered answer to the paused run |
| `Cli.TypedMessageGoes` | `src/feather/cli/__init__.py:281-307` | a typed message goes to the run that awaits an answer, else to the input queue of a busy run, else starts a new run |
| `Cli.CommandsDo` | `src/feather/cli/__init__.py:256-280` | `/exit` and `/quit` stop, blank lines and `/queue` change nothing |
| `Cli.AskingPauses` | `src/feather/cli/__init__.py:382-387` | a run that asks the user is paused, awaiting, busy and with an empty answer queue |
| `Cli.AwaitingIsReachable` | `src/feather/cli/__init__.py:309-387` | an awaiting state is reachable from every first message |
| `Cli.NextMessageAnswers` | `src/feather/cli/__init__.py:281-406` | the message typed next resumes the paused run and is in neither queue |
| `Cli.RunEndsElse` | `src/feather/cli/__init__.py:345-410` | every other ending ends the round, and a crash ends the driver exactly after an answer |
| `Cli.BeginDoes` | `src/feather/cli/__init__.py:316-345` | the driver begins what it took, unless it is stopped |
| `Cli.WatcherWakesIdle` | `src/feather/cli/__init__.py:425-444` | the watcher looks only while the agent is idle and wakes it only through an empty queue |
| `Cli.LinesAreConserved` | `src/feather/cli/__init__.py:229-444` | until stop every line, the sentinel included, is in exactly one place as often as it was accepted or queued by the watcher |
| `Cli.RunsBeginInOrder` | `src/feather/cli/__init__.py:309-330` | runs begin in the order their requests were queued |
| `Cli.AtMostOneWakeQueued` | `src/feather/cli/__init__.py:438-444` | at most one wake sentinel is queued unless the user typed it |
| `Cli.TypedSentinelIsLost` | `src/feather/cli/__init__.py:36-39` | a typed sentinel is taken for a wake and lost, against the comment |
| `Chunker.GreedyFitLoop` | `src/feather/memory/chunker.py:124-132` | the loop stops at the first word that no longer fits |
| `Chunker.RewindForOverlap` | `src/feather/memory/chunker.py:134-150` | the loop finds the largest start of a tail that reaches the overlap, or the end |
| `Chunker.ChunkOnWords` | `src/feather/memory/chunker.py:96-122` | the loop emits the rendered spans of `Spans` with running indices, and the empty chunk for no words |
| `Chunker.RenderIs` | `src/feather/memory/chunker.py:106-117` | chunk i holds the words of span i joined by spaces, their count, and the index i |
| `Chunker.SpansAreTheChunking` | `src/feather/memory/chunker.py:96-150` | the spans are the only chunking that is greedily maximal and continues at the shortest sufficient overlap, for every count function |
| `Chunker.ChunkingCovers` | `src/feather/memory/chunker.py:96-122` | such a chunking loses no word, advances strictly, never leaves a gap and has at most one chunk for each word |
| `Chunker.ZeroOverlapRepeatsOneWord` | `src/feather/memory/chunker.py:134-150` | with overlap 0 the next chunk still repeats exactly one word |
| `TokenChunks.ChunkOnTokens` | `src/feather/memory/chunker.py:74-92` | the windows cut, and exactly ceil((n - overlap) / (size - overlap)) of them |
| `TokenChunks.CountIs` | `src/feather/memory/chunker.py:74-92` | for more than `size` ids the count is the ceiling, by the two inequalities that define it |
| `TokenChunks.WindowLengths` | `src/feather/memory/chunker.py:82-88` | all windows but the last have `size` ids, the last more than `overlap` |
| `TokenChunks.NeighboursOverlap` | `src/feather/memory/chunker.py:82-91` | neighbours share exactly `overlap` ids |
| `TokenChunks.WindowsRebuildInput` | `src/feather/memory/chunker.py:74-92` | the first window and the later ones without their overlap rebuild the input |
| `Overlay.DeepMerge` | `src/feather/config/loader.py:644-663` | the in-place loop over the overlay computes the key-by-key merge |
| `Overlay.LookupInMerge` | `src/feather/config/loader.py:644-663` | every lookup in a merge is determined by the lookups in its two layers and by what the overlay hides |
| `Overlay.MergeIsIdempotent` | `src/feather/config/loader.py:644-663` | merging the same overlay twice is merging it once |
| `Overlay.OverlayFile.WriteValue` | `src/feather/config/writer.py:49-86` | afterwards the path reads back the value and every unrelated path what it read before, or the walk fails and nothing changes |
| `Overlay.WriteWalk` | `src/feather/config/writer.py:76-83` | the cursor loop, descending through missing and null ancestors, computes `Write` |
| `Overlay.WriteFailsIff` | `src/feather/config/writer.py:76-83` | it raises exactly when the root or an ancestor that is not null is no mapping |
| `Overlay.OverlayFile.DeleteValue` | `src/feather/config/writer.py:89-118` | a removed path reads as missing and every unrelated path as before; True exactly when something was there |
| `Overlay.DeleteWalk` | `src/feather/config/writer.py:106-113` | the cursor loop computes `Delete` |
| `Overlay.DeleteFindsIff` | `src/feather/config/writer.py:106-113` | a delete removes something exactly where a lookup finds something |
| `Overlay.DeleteFailsIff` | `src/feather/config/writer.py:106-113` | it raises exactly when it indexes a string that contains its next key or a list that holds it |
| `Overlay.FalsyCountsAsEmpty` | `src/feather/config/writer.py:70-74` | a missing file and one that holds a falsy value count as an empty mapping |
| `Overlay.LookupAfterWrite` | `src/feather/config/writer.py:76-83` | a write is read back and unrelated paths keep their value |
| `Overlay.LookupAfterDelete` | `src/feather/config/writer.py:106-113` | a delete removes its path and hides nothing |
| `Overlay.SetIsVisible` | `src/feather/config/service.py:187-234` | what is set in the overlay is what the merged configuration shows |
| `Overlay.ResetRevealsBase` | `src/feather/config/service.py:278-303` | what is reset shows the base value again |
| `Overlay.SetKeepsUnrelated` | `src/feather/config/service.py:187-234` | setting leaves unrelated merged paths alone except exactly those a null ancestor was hiding |
| `Overlay.ResetKeepsUnrelated` | `src/feather/config/service.py:278-303` | resetting leaves all unrelated merged paths alone |
| `Overlay.LookupOrdersAgreeIff` | `src/feather/config/service.py:307-338` | the service order and the loader order agree on a leaf exactly when the project layer leaves it undefined, the global layer is silent, or both say the same |
| `Overlay.ServiceReadsProjectFirst` | `src/feather/config/service.py:307-338` | the service reads the project layer unless it says nothing or null, and else the global one |
| `DotEnv.LoadDotEnv` | `src/feather/config/env.py:10-43` | the loop leaves the environment the bindings of the text determine and reports what it set |
| `DotEnv.WriteEnvFile` | `src/feather/setup/wizard.py:367-419` | the loop leaves the rewritten text with the new lines and returns the supplied keys in order |
| `DotEnvRoundTrip.SameKey` | `src/feather/setup/wizard.py:422-446` | loader and writer read the same key from every line |
| `DotEnvRoundTrip.RewrittenLineBinds` | `src/feather/setup/wizard.py:449-472` | a rewritten line binds its key to what the loader reads of any new value, `export` lines included |
| `DotEnvRoundTrip.EntryBinds` | `src/feather/setup/wizard.py:449-472` | an entry with any value binds its key to what is read of the first line of the value, and the rest of the value as more lines |
| `DotEnvRoundTrip.RewriteSubstitutes` | `src/feather/setup/wizard.py:449-472` | rewriting a text puts the new entries in the place of the overwritten bindings and changes nothing else |
| `DotEnvRoundTrip.OtherLinesStay` | `src/feather/setup/wizard.py:449-472` | comments, blank lines and lines of other keys are kept as they are, in their places |
| `DotEnvRoundTrip.WrittenEndsWithNewline` | `src/feather/setup/wizard.py:404-418` | a file that is changed ends with a newline |
| `DotEnvRoundTrip.FinalNewline` | `src/feather/config/env.py:27-29` | a missing final newline never changes what a text binds |
| `DotEnvRoundTrip.WrittenBindings` | `src/feather/setup/wizard.py:367-419` | for all values, the written file binds the old bindings with the supplied entries put in, then the new entries |
| `DotEnvRoundTrip.AbsorbIsEffective` | `src/feather/config/env.py:26-43` | a loaded key has the environment's value when that wins, else the first or the last binding of the file |
| `DotEnvRoundTrip.LoadAfterAnyWrite` | `src/feather/setup/wizard.py:367-472` | for all values, a key that no value spills loads with what is read of its new value when supplied and else as before |
| `DotEnvRoundTrip.LoadAfterWrite` | `src/feather/setup/wizard.py:367-472` | with safe values, loading after `write_env_file` gives every supplied key its new value and every other key what it had, for both override modes |
| `DotEnvRoundTrip.RestoredIffSafe` | `src/feather/setup/wizard.py:367-472` | whatever the file held, all keys load so if and only if every supplied value is one trimmed line without a leading quote or " #" |
| `DotEnvRoundTrip.ValueSurvivesIffSafe` | `src/feather/config/env.py:46-63` | a value comes back from a fresh file if and only if it is one trimmed line without a leading quote or " #" |
| `DotEnvRoundTrip.QuotedIsParsed` | `src/feather/config/env.py:58-60` | a value that opens with a quote is left to the shell parser |
| `DotEnvRoundTrip.CommentIsCut` | `src/feather/config/env.py:61-63` | any other value ends where " #" begins |
| `Timestamps.DigitsOrder` | `src/feather/storage/cron_store.py:212-225` | zero-padded decimal fields of one width compare as their numbers do |
| `StringOrder.FirstDifferenceDecides` | `src/feather/storage/cron_store.py:212-225` | strings compare by their first different character, and a proper prefix comes first |
| `Timestamps.FractionOrder` | `src/feather/storage/cron_store.py:212-225` | a whole second sorts before its fractions although the strings differ in length |
| `Timestamps.IsoOrderIsTimeOrder` | `src/feather/storage/cron_store.py:212-225` | string order of `isoformat` times is time order, mixed widths included |
| `Timestamps.IsoIsInjective` | `src/feather/storage/cron_store.py:212-225` | different times are written differently |
| `Timestamps.IsoShape` | `src/feather/storage/cron_store.py:212-225` | the written form is date, T, time of day, a fraction when there is one, and the offset |
| `Timestamps.AtMostIsNotLater` | `src/feather/messaging/store.py:293-311` | string comparisons in filters select exactly the times not after the bound |
| `Cron.CronJobStore.CreateJob` | `src/feather/storage/cron_store.py:21-86` | inserts an active job with its first due time, or raises and changes nothing |
| `Cron.CronJobStore.UpdateJob` | `src/feather/storage/cron_store.py:150-210` | an update that nothing interrupts: every way it raises, and what it writes |
| `Cron.CronJobStore.MarkJobSucceeded` | `src/feather/storage/cron_store.py:228-253` | uninterrupted, it advances a recurring job and completes a one-time job |
| `Cron.CronJobStore.MarkJobFailed` | `src/feather/storage/cron_store.py:255-273` | uninterrupted, it moves the job to the retry time unless it is completed |
| `Cron.CreatedIsInTheFuture` | `src/feather/storage/cron_store.py:34-86` | a new job is active, named, and due strictly after its creation |
| `Cron.NextRunIs` | `src/feather/storage/cron_store.py:339-376` | a recurring job asks croniter, a one-time job its own date, which must lie ahead; else the first fault is named |
| `Cron.EditWrites` | `src/feather/storage/cron_store.py:164-208` | an update writes what it was given, stripped, and else what it read |
| `Cron.EditNeedsTexts` | `src/feather/storage/cron_store.py:164-182` | an update raises when one of its texts is missing or empty, or its type or status is None |
| `Cron.ColumnsWritten` | `src/feather/storage/cron_store.py:199-273` | which columns each kind of write sets |
| `Cron.ErrorIsShortened` | `src/feather/storage/cron_store.py:268-270` | the error text is stripped, at most 4000 characters and never empty |
| `Cron.UpdatedNextRun` | `src/feather/storage/cron_store.py:184-197` | the next run after an update: none when completed, strictly later when rescheduled or reactivated, else unchanged |
| `Cron.HandlingShrinksDue` | `src/feather/storage/cron_store.py:228-273` | the write that ends a dispatch removes exactly its job from the jobs due at that time, however old its read |
| `CronRuns.ReadThenWrite` | `src/feather/storage/cron_store.py:164-208` | the read step and the write step, one right after the other, are the uninterrupted call |
| `CronRuns.StepKeepsInv` | `src/feather/storage/cron_store.py:21-273` | every step of overlapping calls keeps a next run on every active job |
| `CronRuns.ActiveHasNextRun` | `src/feather/storage/cron_store.py:21-273` | in every reachable table an active job has a next run, however the calls overlap |
| `CronRuns.CompletedStaysIff` | `src/feather/storage/cron_store.py:150-273` | a completed job stays completed if and only if it is not deleted, no call that reads it from then on reopens it, and no call that read it before writes another status back |
| `CronRuns.CompletedIsNotDue` | `src/feather/storage/cron_store.py:212-273` | as long as that holds it is due at no time |
| `CronRuns.RenameRevives` | `src/feather/storage/cron_store.py:164-253` | a rename that overlaps the success of a due one-time job makes the job that just ran due again |
| `CronRuns.FailureRevives` | `src/feather/storage/cron_store.py:150-273` | a failed dispatch that overlaps an update which completes the job makes it active again |
| `CronRuns.ReopenedIsDueLater` | `src/feather/storage/cron_store.py:184-197` | a call that read a completed job and reopens it makes it due only later than the call |
| `CronRuns.FinishedUnlessClash` | `src/feather/storage/cron_store.py:150-253` | completed one-time jobs have no next run exactly until a success, read while the job was completed and recurring, lands after an update has made it a one-time job |
| `CronRuns.SuccessLeavesNextRun` | `src/feather/storage/cron_store.py:150-253` | such a state is reachable |
| `CronRuns.LateSuccessSchedules` | `src/feather/storage/cron_store.py:228-253` | even without overlaps a late success gives a completed recurring job a next run |
| `CronRuns.FailureActivates` | `src/feather/storage/cron_store.py:255-273` | even without overlaps a failed dispatch activates a paused job |
| `CronRuns.TickDrains` | `src/feather/storage/cron_store.py:212-273` | however the reads and writes of a tick interleave, it leaves due exactly the jobs it did not write |
| `Schemas.SanitizeCleans` | `src/feather/providers/claude_translator.py:92-122` | only a schema without rejected keyword and without null or single-entry type list outside instance data is left alone, and the result is such a schema if and only if no walked type list consists, nulls aside, of one list that would itself be narrowed |
| `Schemas.IdempotentIffSettled` | `src/feather/providers/claude_translator.py:92-122` | sanitising twice is sanitising once exactly under that condition |
| `Schemas.SanitizeIsIdempotent` | `src/feather/providers/claude_translator.py:92-122` | so sanitising is idempotent when type lists hold strings |
| `Schemas.NestedTypeListsUnwrap` | `src/feather/providers/claude_translator.py:94-109` | the failing family: a list that is the only type is unwrapped by one pass and changed again by the next unless it is clean |
| `Schemas.OnlyRejectedKeysAreLost` | `src/feather/providers/claude_translator.py:110-116` | exactly the rejected keys are dropped, also from a properties mapping |
| `Schemas.SanitizedAt` | `src/feather/providers/claude_translator.py:92-122` | what becomes of each key: rejected keywords go, instance data stay, "type" is narrowed, everything else is walked |
| `Schemas.NarrowedTypeIs` | `src/feather/providers/claude_translator.py:94-109` | nulls aside, an empty type list becomes "string", one entry replaces it, more stay a list |
| `Schemas.NullsVanish` | `src/feather/providers/claude_translator.py:95-95` | nulls are dropped wherever they stand in a type list |
| `Schemas.FlattenFlattens` | `src/feather/providers/openrouter_translator.py:107-117` | only a schema in which no type is a non-empty list is left alone, and the result is such a schema if and only if no type that is picked from a list is itself a non-empty list |
| `Schemas.PickedTypeIs` | `src/feather/providers/openrouter_translator.py:108-112` | the first type that is not "null" is picked |
| `Schemas.FlattenIdempotentIffSettled` | `src/feather/providers/openrouter_translator.py:107-117` | flattening twice is flattening once exactly under that condition |
| `Schemas.FlattenIsIdempotent` | `src/feather/providers/openrouter_translator.py:107-117` | so flattening is idempotent when type lists hold strings |
| `Schemas.AddStrictIs` | `src/feather/providers/schema_utils.py:28-35` | an object node is closed and requires all its properties, and only a node that did not is changed |
| `Schemas.StrictNodeIs` | `src/feather/providers/schema_utils.py:28-35` | an object node is closed unless it says otherwise, requires exactly its properties and keeps everything else; other nodes stay |
| `Schemas.WalkedAt` | `src/feather/providers/schema_utils.py:36-51` | which subschemas the walk descends into |
| `Schemas.HardenedIffFixed` | `src/feather/providers/schema_utils.py:26-54` | hardening leaves a schema alone exactly when every walked node is strict; so it is idempotent |
| `Schemas.StrictThenWalk` | `src/feather/providers/schema_utils.py:28-54` | adding a node's keys before or after walking its children gives the same node |
| `ClaudeTranslation.TranslateInputItems` | `src/feather/providers/claude_translator.py:259-329` | the item loop merges the contributions of the items |
| `ClaudeTranslation.MergedIsTheGrouping` | `src/feather/providers/claude_translator.py:291-329` | the messages are the only list that alternates roles, has no empty message and holds the items' blocks in order under their roles |
| `OpenRouterTranslation.TranslateInputItems` | `src/feather/providers/openrouter_translator.py:196-257` | the item loop yields groups that expand to the items in order, the first call of a run bringing its text |
| `OpenRouterTranslation.GroupingIsUnique` | `src/feather/providers/openrouter_translator.py:196-257` | no other grouped messages expand to the same items |
| `OpenRouterTranslation.EveryCallOnce` | `src/feather/providers/openrouter_translator.py:225-241` | every call is carried exactly once, in order |
| `OpenRouterTranslation.GroupsAreMaximal` | `src/feather/providers/openrouter_translator.py:200-212` | two tool-call messages are never adjacent, so skipped items do not break a run |
| `LogTriage.LogTriageBot.RunOnce` | `src/feather/core/log_triage_bot.py:150-168` | one scan, with rotation, remembering every new error, and a summary of only the first of them |
| `LogTriage.LogTriageBot.Remember` | `src/feather/core/log_triage_bot.py:310-324` | the loop keeps deque and set equal, distinct, within the cap and below the mark |
| `LogTriage.TimeDecidesFirst` | `src/feather/core/log_triage_bot.py:74-78` | fingerprints compare by time, and between equal times by message |
| `LogTriage.MarkIsRemembered` | `src/feather/core/log_triage_bot.py:150-324` | in every reachable state the mark stands exactly for what this log generation has remembered |
| `LogTriage.OnlyTheMarkDecides` | `src/feather/core/log_triage_bot.py:170-187` | the set test of `_is_new` is redundant |
| `LogTriage.RememberedIffUnseen` | `src/feather/core/log_triage_bot.py:150-187` | a scan remembers exactly the errors it reads that sort above everything remembered before in the generation |
| `LogTriage.ShownIffFirstUnseen` | `src/feather/core/log_triage_bot.py:269-281` | a summary lists exactly the unseen errors that are among the first `max_errors_per_summary` unseen ones of the scan |
| `LogTriage.RememberedIsNotShownLater` | `src/feather/core/log_triage_bot.py:160-187` | what a scan remembered no later summary lists, so an error cut from its summary is never shown |
| `LogTriage.NothingIsPostedTwice` | `src/feather/core/log_triage_bot.py:150-324` | no fingerprint is in two different summaries of one log generation |
| `LogTriage.RepeatsShareASummary` | `src/feather/core/log_triage_bot.py:160-163` | one summary holds a fingerprint as often as its scan read it, up to the limit |

## Left out

- EventsIgnoreChunking: stated one way for the events of both parsers, because whether a CR CR LF changes events depends on the foreign decoder; at the level of frames the condition is exact, and `CrCrLfChangesEvents` gives the failing family.
- LoadAfterWrite: assumes safe values, which `RestoredIffSafe` shows to be the exact condition; `WrittenBindings` says what every other value does. Supplied keys hold no space, "=" or "#".
- HTTP transport, header parsing, backoff and real time: an attempt is its events and how it ends.
- JSON, UTF-8 decoding, YAML text, token encodings, croniter, time zones, shell quoting and content-block translation: foreign functions passed as parameters.
- Shell quoting that raises: the function for quoted `.env` values always returns.
- UUIDs and clock reads: fresh ids and increasing times are inputs.
- SQL and storage errors: a table is a sequence or a map; `list_due_jobs` is modelled without its ordering and LIMIT.
- Interference within a transaction: in `Mailbox` and `MessagingStore` a transaction is one step. All coroutines of a process share one connection for each store, which does not enforce this: a `mark_delivered` can run inside an open `send`. `OverlapExpiresDelivered` shows one consequence; the results over runs of the mailbox hold for transactions that do not overlap.
- `delete_job` returning whether a row was removed, `release_inbound` and `get_chat_mapping` as methods: `CronRuns` and `Router` have their statements as steps.
- Negative block indices: the Claude stream would index from the end.
- The final chunk's model, usage and finish reason: only the id is kept of it.
- The capacity of the input queue: a handed-over line counts as delivered to it even when the queue refuses it.
- Slash commands, console rendering, prompts and the text interface.
- `Chunker.chunk`, which only chooses between one chunk and the two algorithms, and decoding windows back to text.
- The walk that writes or deletes a YAML leaf changes its tree through a cursor; the model carries the change back up to the root (`Rebuild`).
- The test for `raw_arguments` raises on arguments that decode to a number, a boolean or null; here it fails like any other incomplete call.
- Object identity: YAML trees, schemas, messages and slots are values, so sharing between subtrees is not modelled; the two schema walkers that copy first need nothing more, `harden_strict_schema` also changes its caller's object.
- Catalog entries that are not mappings are assumed filtered out, as the first loop of `_resolve_inherits` does.
- Messages with blank text, which the router ignores before claiming.
- Atomic file replacement and file modes.
- A dedup cap of zero, with which the log triage bot raises when it remembers an error.
- The log line pattern and the text of a summary: a scan is the fingerprints it reads.
- The loader's defaults and field parsing, the settings registry, data records, the web layer, Docker and onboarding prompts.
- Qdrant, embeddings, prompts and the extractor calls.
