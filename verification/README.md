# Verification of the LLM gateway's hard core

A Dafny model of five parts of the gateway, proved against specifications that are
stated independently of the code:

1. **Key store and staleness protocol** (`keys/`). An ordered list of key sources is composed into
   one published snapshot; pollers install and confirm contributions while an evaluator, driven by a
   capacity-1 signal channel, a version counter and a timer, takes stale sources out of service.
   `KeyStore` is the store as a class with its loops, `KeyModel` says what each critical section does,
   `StalenessProtocol` lets any number of runners, the evaluator and the clock interleave one critical
   section or channel operation at a time, and `StalenessTheorems` and `KeyComposition` prove what holds
   in every reachable state.
2. **Conditional polling** (`KeyPolling`, `KeyLoading`, `HeaderSplit`, `Pagination`): the ETag a source
   keeps, the contribution the store keeps and the document the server keeps.
3. **Anthropic translation and the SSE path** (`AnthropicRequest`, `AnthropicStream`,
   `AnthropicAgreement`, `SseWriter`, `SseClient`, `StreamRoundTrip`): the streaming translator agrees
   with the whole-message one, and the browser's incremental parser undoes the Go writer however the
   network cuts the text.
4. **Endpoint pool** (`Rotation`, `Pool`, `Backoff`): weighted rotation with 64-bit index arithmetic,
   two failover loops over shared health flags, and health checks with backoff.
5. **Caches and matchers** (`RecencySpec`, `LruCache`, `Memo`, `CachedBackend`, `Requests`, `Classifier`,
   `Vector`, `Embeddings`): a map and a list over shared entries refine a recency sequence, and the
   cached classifier and embedder answer as uncached ones do.

Code that changes state is a class or a loop proved against a function or relation; the functions and
relations carry the theorems. Clock readings, loads, probes, upstream bytes, backends, hashes and
encoders are parameters. `dafny verify dfyconfig.toml` checks everything.

Where code and documentation differ, the code is followed. Four findings are stated as exact conditions:

* An idle evaluator does not strictly mean that every source in service is fresh: the code reads the clock
  and starts the timer in two steps. A quiet evaluator that is left alone keeps every source fresh until its
  timer wakes it exactly when no time passed between the two (`StalenessTheorems.FreshExactlyWithoutLag`);
  it never falls behind by that time or more, and for every such time some run of an accepted
  configuration falls behind by all of it but one instant (`KeyConfig.LagIsReachedWhenAccepted`).
* A source that refreshes promptly and successfully is never stale when the limit exceeds its interval plus
  the longest load (`StalenessTheorems.HealthyRun`), and otherwise it can be (`StalenessTheorems.BoundIsTight`).
  For an HTTP source validation checks exactly this; for a file source, which has no timeout, it compares the
  limit with the interval alone, so the time its reads take is a hypothesis
  (`KeyConfig.HealthySourceNeverExcluded`).
* A streamed answer equals the whole-message translation in text, tool-call order, ids and names always,
  but in arguments and finish reason exactly when the upstream sent some argument text for every tool and
  a stop reason: a tool without argument text streams as `""` where the whole message has `"{}"`
  (`AnthropicAgreement.StreamAgreesWithMessage`, `AnthropicAgreement.SilentToolDiffers`).
* The rotation index is the intended one as long as counter plus offset stays below 2^63; from there to
  2^64 the machine computes a negative index, which panics, unless the number of entries divides the
  distance to 2^64, and past 2^64 the rotation starts over (`Rotation.MachineIndexIsRotation`).

## Model

| member | source | states |
|---|---|---|
| KeyStore.Store.constructor | keys/store.go:195-212 | a new store is booting, has published nothing and satisfies the store's invariant |
| KeyStore.Store.RegisterSource | keys/store.go:214-222 | refuses a taken name without effect; otherwise appends the source at lowest precedence, and the published map and deadline stay right |
| KeyStore.Store.FinishBoot | keys/store.go:245-250 | leaving boot publishes once and arms the deadline |
| KeyStore.Store.Install | keys/store.go:254-283 | succeeds exactly for a version-1 contribution without nil records from a registered source, then holds its own stamped copy, reinstates the source and publishes one generation on; otherwise changes nothing |
| KeyStore.Store.Touch | keys/store.go:286-306 | confirms exactly sources that hold a contribution; recomposes only when that reinstates the source, and otherwise only rearms |
| KeyStore.Store.Recompose | keys/store.go:308-369 | whatever the source states, the published map becomes the declarative composition, the generation rises by one and the deadline is rearmed; during boot nothing is published |
| KeyStore.Store.FindWinners | keys/store.go:308-329 | the first pass assigns every held digest to the first source in the order that holds it |
| KeyStore.Store.EmitWinners | keys/store.go:331-344 | the second pass builds exactly the composition: each digest with its winner's record if the winner is in service |
| KeyStore.Store.ArmDeadline | keys/staleness.go:40-63 | the published deadline is the earliest load time plus limit of any in-service reloadable loaded source, or disarmed when there is none; the version rises and the signal is pending |
| KeyStore.Store.ExcludeOverdue | keys/staleness.go:112-125 | exactly the overdue sources leave service, the result says whether there was one, and a source that does not reload is left as it was |
| KeyStore.Store.EvaluateStaleness | keys/staleness.go:108-132 | one evaluation excludes exactly the overdue sources, republishes if there were any and rearms either way |
| KeyStore.Store.Lookup | keys/store.go:438-451 | a returned record is the winner's, after boot, in service and without an expiry or before it; a served record is refused exactly when it has an expiry and the clock has reached it |
| KeyStore.ExpiryIsFinal | keys/record.go:49-52 | a record lives up to the instant before its expiry, forever without one, and once expired stays so for every later clock reading |
| KeyComposition.WinnerIsFirstHolder | keys/store.go:308-329 | the winner of a digest is the first registered source that holds it |
| KeyComposition.ServedExactlyByFirstHolder | keys/store.go:331-344 | a digest is served iff the first registered holder is in service; an excluded winner never exposes a lower-precedence record |
| KeyComposition.ExclusionRestricts | keys/staleness.go:108-132 | excluding sources yields a sub-map of the old map: what is gone is exactly what the newly excluded sources had won, and nothing else changes |
| KeyComposition.InstallKeepsInv | keys/store.go:254-283 | every installation keeps map, generation, deadline and signal consistent and touches no other source |
| KeyComposition.TouchKeepsInv | keys/store.go:286-306 | every confirmation keeps the invariant and every contribution |
| KeyComposition.EvaluateKeepsInv | keys/staleness.go:108-132 | every evaluation keeps the invariant and changes nothing but service flags of overdue sources |
| KeyComposition.EvaluationTakesOut | keys/staleness.go:108-132 | an evaluation excludes exactly the sources that are reloadable, in service, hold a contribution, were loaded and whose load time plus limit has come, and leaves every source that does not reload as it was |
| KeyComposition.DeadlineIsOfReloadingSource | keys/staleness.go:40-63 | an armed deadline is the earliest of a reloadable, in-service, loaded source, and it is armed exactly when there is one |
| KeyComposition.StoreCallsDecide | keys/store.go:254-306 | which contributions a store installs and which sources it confirms, field by field, and that a refusal changes nothing |
| KeyComposition.ServiceRunKeepsContributions | keys/store.go:286-342 | over every run of evaluations and confirmations the published map stays the composition of the contributions the run began with |
| KeyComposition.SameFlagsSameMap | keys/store.go:286-342 | any run of exclusions and reinstatements that ends with the service flags it began with ends with the map it began with |
| KeyComposition.ConfirmingRestores | keys/store.go:286-306 | confirming exactly the sources an evaluation excluded, in any order and however often, restores the map published before |
| KeyCopy.RecordObject.Copy | keys/contribution.go:22-30 | a copied record has the original's contents under the new source and shares no slice or expiry cell with anything that existed |
| KeyCopy.Clone | keys/contribution.go:9-33 | the store's copy equals the contribution record by record, nil for nil, is entirely fresh, and its records share nothing with each other even when the source listed one record twice |
| StalenessProtocol.CommitKeepsInv | keys/runner.go:56-88 | a runner's store call keeps the protocol invariant in every state of the evaluator |
| StalenessProtocol.NextKeepsInv | keys/staleness.go:40-132 | every step of any runner, the evaluator or the clock keeps the protocol invariant, with a limit and, when no evaluator runs, without |
| StalenessProtocol.RunKeepsInv | keys/staleness.go:40-132 | in every reachable state of every interleaving, with a staleness limit or without one, the map is the composition, and under a limit the deadline is the earliest one |
| StalenessTheorems.IdleEvaluatorMeansFresh | keys/staleness.go:65-106 | no lost wakeup: an idle evaluator with no pending signal and no expired timer means every in-service source is younger than the limit, up to the delay between the evaluator's clock reading and the start of its timer |
| StalenessTheorems.FreshExactlyWithoutLag | keys/staleness.go:65-106 | in every reachable quiet state: left alone, the evaluator lets no source grow overdue before its timer wakes it iff the timer was started at the instant the clock had been read |
| StalenessTheorems.LagIsReached | keys/staleness.go:92-99 | for every delay between clock reading and timer start a run leaves a source overdue by all of it but one instant under a quiet evaluator |
| KeyConfig.LagIsReachedWhenAccepted | keys/staleness.go:92-99 | that run is one of a configuration validation accepts |
| StalenessTheorems.OverdueSourceHasStep | keys/staleness.go:65-106 | in every interleaving, while a source is overdue by that measure a running evaluator has an enabled step |
| StalenessTheorems.EnabledStepCanBeTaken | keys/staleness.go:65-132 | an enabled evaluator step is never blocked: a successor state exists |
| StalenessTheorems.EvaluatorStepDescends | keys/staleness.go:65-132 | every evaluator step at a standing clock lowers a rank of at most 19 and changes no source but by excluding overdue ones |
| StalenessTheorems.EvaluatorSettles | keys/staleness.go:65-132 | from any reachable state the evaluator rests within 19 steps of its own, having excluded nothing or exactly the overdue sources; at rest no source overdue by the lag of its timer or more is in service, and with a timer started without lag exactly the overdue ones have left |
| StalenessTheorems.StepPublishesOneGeneration | keys/store.go:356-368 | every step either leaves the snapshot alone or raises the generation by exactly one, and the map in force is always the composition of the sources as they are |
| StalenessTheorems.HealthyRun | keys/runner.go:27-47 | under prompt scheduling and bounded successful loads, a limit above interval plus bound keeps the source in service and fresh in every state from its first refresh on, whatever everybody else does |
| StalenessTheorems.BoundIsTight | keys/validate.go:79-88 | the strict comparison is the right one: for every interval and load bound that together reach the limit, some run that is ideal throughout lets the source grow stale after a refresh |
| StalenessTheorems.BootEndsReady | keys/store.go:245-250 | boot ends with generation 1 and the composition published; under a limit with version 1 and a pending signal, and without one with neither |
| StalenessTheorems.BootedSystemIsInit | keys/store.go:371-384 | that is where the protocol starts, with an evaluator exactly when there is a limit |
| StalenessTheorems.UnlimitedRun | keys/store.go:371-378 | without a limit no run ever takes a source out of service |
| StalenessTheorems.StaticSourceStays | keys/staleness.go:112-118 | in every run, whatever runners, evaluator and clock do, a source that does not reload stays exactly as it was |
| KeyConfig.Validate | keys/validate.go:12-91 | accepts exactly the configurations with unique non-reserved names and acceptable sources, and leaves each accepted source under its resolved name, non-empty, its own alone and never "config" |
| KeyConfig.ValidateSource | keys/validate.go:61-88 | in 64-bit arithmetic and without overflow on any input, accepts exactly the sources whose interval plus timeout fits in 64 bits and stays below the limit |
| KeyConfig.AcceptableSources | keys/validate.go:61-88 | what acceptance amounts to by type: a positive interval below the limit and a path with some character that is not blank, or an absolute URL with positive interval and timeout that together stay below the limit |
| KeyConfig.NamesOfSources | keys/validate.go:44-47 | a source goes by its name without the blanks around it, or by its type and position when that leaves nothing |
| KeyConfig.HealthySourceNeverExcluded | keys/validate.go:79-88 | for every accepted configuration, with a limit or without, a healthy HTTP source is never excluded, on what validation checked alone, and a healthy file source is not as long as its reads leave a limit above interval plus read time |
| KeyLoading.CheckGrants | keys/decode.go:184-193 | grants pass exactly when every model pattern is valid and every route is non-empty |
| KeyLoading.MapWireEnvelope | keys/decode.go:144-209 | accepts exactly version-1 envelopes whose records are well formed with pairwise distinct digests, and keeps all of them in order |
| KeyLoading.DecodeJson | keys/decode.go:102-130 | additionally demands a count that equals the number of records |
| KeyLoading.DecodeYaml | keys/decode.go:80-100 | additionally refuses a count, even a null one |
| KeyLoading.LoadConfigSource | keys/configSource.go:22-59 | inline entries load exactly when each is well formed and no two share a key value, in order and stamped with their source |
| KeyLoading.AcceptedIsTranscript | keys/decode.go:80-209 | field by field: a document is accepted exactly when it is of version 1, counts its records as its form demands and has a transcript, which is then what is loaded: each record's own name, grants and expiry under the digest of its one key form, distinct from all others |
| KeyLoading.InlineIsTranscript | keys/configSource.go:22-59 | field by field, inline entries load exactly when they have a transcript of names, grants and key digests, none of them expiring, and as that transcript |
| KeyLoading.LoadedIsUnique | keys/decode.go:149-206 | whatever any of the three loaders accepts has one record per digest |
| KeyLoading.BootedIsUnique | keys/store.go:97-178 | however sources are registered and loaded at boot, the store goes into service consistent and with one record per digest in every source |
| KeyLoading.RunKeepsUnique | keys/decode.go:149-206 | over every run of the program, booted from documents and fed with documents, each contribution held or about to be installed has one record per digest |
| KeyLoading.SnapshotRefinesPrecedence | keys/store.go:308-369 | in every reachable state of every such run a digest is served iff the first registered holder is in service, and as the one record that source has for it |
| KeyPolling.HttpSource.LoadFrom | keys/httpSource.go:50-108 | the outcome and the validator kept for next time, for every response: the validator moves only with an accepted 200, and a 200 without one clears it |
| KeyPolling.HttpSource.Refresh | keys/runner.go:56-88 | a refresh installs a fetched contribution, touches on 304 and leaves the store alone on failure, keeping its invariant |
| KeyPolling.StoreCannotRefuseALoad | keys/store.go:254-275 | for every response, a successful load is followed by a successful store call, so the validator never moves past what the store holds |
| KeyPolling.EveryDeliverySucceeds | keys/runner.go:56-88 | against every server whatsoever and whatever others do between a load and its store call, the store never refuses one |
| KeyPolling.DeliveryKeepsCoherence | keys/runner.go:71-87 | a store call leaves exactly the document of the poll it delivers, in service as of its clock reading |
| KeyPolling.PollKeepsCoherence | keys/httpSource.go:50-108 | against a server whose tag determines its document, a poll succeeds exactly for an honest unpaged answer with a decodable document, and leaves the store with exactly that document, in service as of now |
| KeyPolling.ElsewhereKeepsCoherence | keys/store.go:214-306 | registrations, the end of boot, other sources' refreshes, evaluations and signal receipts leave validator and document in agreement, also between a load and its store call |
| KeyPolling.PollingIsCoherent | keys/runner.go:56-88 | from every coherent start, in every run mixing 200, 304, missing tags, refusals, garbage, boot and other sources' steps at any point, each store call leaves exactly the server's document of the poll it delivers |
| KeyPolling.PollingIsCoherentFromRegistration | keys/store.go:158-175 | a registered source that has not loaded yet is such a start, so boot load, end of boot and all later polls are covered |
| HeaderSplit.SplitHeaderValue | keys/httpSource.go:160-197 | the one-pass scan with its three mode flags splits as the token-by-token reference does: at the bare separators and nowhere else |
| HeaderSplit.JoinUndoesSplit | keys/httpSource.go:160-197 | joining the pieces gives the input back, for every input |
| HeaderSplit.SplitUndoesJoin | keys/httpSource.go:160-197 | splitting a joined list gives its pieces back whenever each piece closes its targets and quoted strings |
| HeaderSplit.QuotedTextStaysWhole | keys/httpSource.go:166-183 | no text whatever, once quoted and escaped, can split a value or swallow what follows it |
| Pagination.HasPagination | keys/httpSource.go:132-158 | a response counts as paged exactly when it has a content range or some link has a rel parameter naming next, prev, first or last in any case |
| Pagination.ListedLinksPage | keys/httpSource.go:136-156 | one header value listing several closed links pages exactly when one of them alone does |
| Pagination.QuotedLinkPages | keys/httpSource.go:137-152 | for every target and every list of relations: the link with the relations in a quoted rel pages exactly when one of them names a page |
| Pagination.BareLinkPages | keys/httpSource.go:147-152 | a single relation may stand unquoted, with the same answer |
| Pagination.LinkPages | keys/httpSource.go:141-152 | for every parameter name and value: the link pages exactly when the name is rel in any case and the value has a relation that names a page |
| Pagination.OtherHeaders | keys/httpSource.go:132-146 | a content range pages whatever the links say; a link without a target or with another parameter in place of rel does not |
| Pagination.PageRelations | keys/httpSource.go:148-152 | next, prev, first and last name a page, in any case |
| AnthropicStream.TranslateResponse | providers/anthropic.go:561-614 | text and tool calls of the message in order, with null content only for a purely tool-calling turn |
| AnthropicStream.MessageBlockByBlock | providers/anthropic.go:561-582 | text blocks give their text, tool blocks a function call with their id, name and input or an empty object, other blocks nothing, in order |
| AnthropicStream.StopReasonsInOpenAITerms | providers/anthropic.go:616-629 | the four known stop reasons by their OpenAI names, anything else unchanged |
| AnthropicStream.LineIsOrderly | providers/anthropic.go:251-345 | each line emits at most one event, which opens a call under the next free index or names one given out before, and the reader stops exactly at a terminal event |
| AnthropicStream.ReadSSEStream | providers/anthropic.go:226-350 | the reader's loop emits exactly the stream defined line by line, with tool indices in order and nothing after a terminal event |
| AnthropicStream.EveryStreamIsOrderly | providers/anthropic.go:226-350 | for every upstream whatsoever, tool indices are given out 0, 1, 2, ..., fragments name only indices already given out, and nothing follows a terminal event |
| AnthropicStream.StreamsEndAsUpstreamEnds | providers/anthropic.go:251-349 | for every list of lines the first one that ends the stream decides: a message stop gives Done, an upstream error a failure with its message, a malformed line or a broken read a failure |
| AnthropicStream.DoneMeansMessageStop | providers/anthropic.go:262-349 | the client is told of a proper end exactly when that line is a message stop, and of a failure exactly when it is another or the read breaks before any |
| AnthropicAgreement.NoiseIsTransparent | providers/anthropic.go:226-262 | blank lines, event names, pings and block ends change nothing that is emitted |
| AnthropicAgreement.FoldBlocks | providers/anthropic.go:264-318 | folding the emitted chunks of any well-formed block sequence, however fragmented, appends its text and its tool calls in order |
| AnthropicAgreement.StreamedMessage | providers/anthropic.go:226-350 | what a client holds at the end of a well-formed stream: text, calls, finish reason and one proper end |
| AnthropicAgreement.MessageIsLabelled | providers/anthropic.go:241-275 | every chunk of a message's stream carries the message's id and the requested model |
| AnthropicAgreement.StreamAgreesWithMessage | providers/anthropic.go:561-629 | the folded stream has the text and the tool calls 0..k-1 of the whole-message translation; arguments and finish reason agree exactly when the upstream sent argument text for every tool and a stop reason |
| AnthropicAgreement.SilentToolDiffers | providers/anthropic.go:276-305 | the condition is needed: a tool called without argument text streams empty arguments where the whole message has an empty object |
| AnthropicRequest.ConvertAssistantMessage | providers/anthropic.go:448-470 | the spoken text and all tool calls of an assistant turn survive, in order, each with its id, name and arguments or an empty object for none |
| AnthropicRequest.TranslateMessages | providers/anthropic.go:402-432 | un-grouping the output gives exactly the converted non-system turns in order; groups are non-empty and never adjacent; the system field is the last system message |
| AnthropicRequest.TurnsByRole | providers/anthropic.go:411-431 | each message adds the one turn its role calls for, with its own text and call id, and a system message none |
| AnthropicRequest.SystemIsLast | providers/anthropic.go:412-414 | the system field is the text of the system message no other follows, or nothing |
| AnthropicRequest.ExtractedText | providers/anthropic.go:542-559 | a string is its own text, a list is the texts of its parts joined by line breaks, anything else has none |
| AnthropicRequest.GroupingIsUnique | providers/anthropic.go:402-432 | that leaves no choice: only one well-grouped output has the given turns |
| SseWriter.SSEWriter.WriteEvent | providers/streaming.go:52-58 | appends one data frame to the response |
| SseWriter.SSEWriter.WriteDone | providers/streaming.go:70-76 | appends the end mark's frame |
| SseWriter.SSEWriter.HandleStreamingCompletion | gateway/handler.go:285-331 | the loop writes exactly the frames of the payloads the events stand for, with the model name replaced by the bound one |
| SseWriter.OneTerminalFrame | gateway/handler.go:300-331 | for every event sequence the last frame is terminal and no other is, the others being chunks, and it is [DONE] iff a Done event precedes any error |
| SseWriter.PayloadsCarryChunks | gateway/handler.go:300-331 | the k-th payload encodes the k-th chunk before the first terminal event, with its id, text, tool calls and finish reason unchanged and the bound model |
| SseWriter.LastPayloadTellsTheEnd | gateway/handler.go:300-331 | the last payload is [DONE] for a proper end, the failure's own message for a failure, and a truncation error when the events just stop |
| SseWriter.ClientFoldsTheEvents | gateway/handler.go:300-331 | a client that decodes the payloads folds the same text, tool calls, finish reason and end as one that reads the events |
| SseClient.StreamCompletion | frontend/src/lib/api.ts:112-178 | for every cutting of a text into pieces, the parser's tokens are those of the text's complete frames, and it returns their concatenation |
| SseClient.SplitResumes | frontend/src/lib/api.ts:144-147 | splitting a buffer and keeping its last element is splitting the whole text, wherever the cut falls, inside a separator included |
| SseClient.PayloadsOfPrinted | frontend/src/lib/api.ts:149-156 | the parser recovers exactly the payloads the writer printed |
| SseClient.FieldLines | frontend/src/lib/api.ts:149-158 | a data line gives its value without the blanks around it and nothing when it has only blanks |
| SseClient.OtherLines | frontend/src/lib/api.ts:149-158 | a line of any other kind gives nothing |
| StreamRoundTrip.EveryCutRoundTrips | frontend/src/lib/api.ts:138-177 | handler, writer and parser together: for every event sequence and every cutting, the payloads and the contents before the first terminal event come back in order |
| StreamRoundTrip.TokensAreFoldedText | frontend/src/lib/api.ts:160-166 | what the browser concatenates is the text an OpenAI client folds |
| StreamRoundTrip.BrowserShowsTheMessage | gateway/handler.go:285-331 | end to end: for every well-formed upstream message, fragmentation, noise and cutting, the browser holds exactly the text of the whole-message translation |
| StreamRoundTrip.LastFrameTellsUpstreamsEnd | gateway/handler.go:300-331 | for every upstream: the last frame is [DONE] exactly when the upstream's stream ended with a message stop, and carries its message when it ended with an error |
| StreamRoundTrip.ClientHoldsTheStream | gateway/handler.go:285-331 | for every upstream and every cutting: whoever decodes the frames assembles the text, the tool calls, the finish reason and the end that the upstream's stream spells |
| Rotation.MachineIndexIsRotation | providers/multiLocal.go:98-104 | for the counter's whole range: the machine's index is counter plus offset modulo the entries below 2^63, from there to 2^64 negative unless the entries divide the wrapped sum, and past 2^64 the rotation starts over |
| Rotation.CounterOverflowPanics | providers/multiLocal.go:98-104 | the range is needed: at counter 2^63 three entries are indexed below zero |
| Rotation.InOrderIsComplete | providers/multiLocal.go:338-350 | the attempt order lists each in-service endpoint exactly once despite weighted duplicates |
| Rotation.InOrderKeepsOrder | providers/multiLocal.go:338-350 | and in the order in which the endpoints first occur in the rotation |
| Rotation.RoundIsFair | providers/multiLocal.go:98-109 | with every endpoint in service, as many consecutive calls as there are entries return each endpoint exactly its weight times, wherever the counter stands |
| Pool.MultiLocal.constructor | providers/multiLocal.go:62-94 | each endpoint is listed once uniquely and exactly its weight times in the rotation, once for a weight that is not positive, all in service |
| Pool.MultiLocal.Next | providers/multiLocal.go:98-109 | the first in-service entry cyclically at or after the counter, or the first endpoint when none is, and the counter moves by one |
| Pool.MultiLocal.ChatCompletion | providers/multiLocal.go:137-155 | an undisturbed call tries untried in-service endpoints while there are any, goes on exactly on network errors, gives up only after every endpoint in service at entry failed, and takes out exactly those that failed |
| Pool.MultiLocal.RoundTrip | providers/multiLocal.go:338-374 | endpoints in service at entry are tried in rotation order from the counter, each at most once, up to the first answer that is no network error; a body that cannot be recreated allows one attempt, and no attempt sends a drained body |
| Pool.MultiLocal.CheckAll | providers/multiLocal.go:238-283 | a round applies one check to every endpoint, counts all next checks from its start, and staggers exactly after more than two intervals |
| Pool.Endpoint.Check | providers/multiLocal.go:255-275 | an endpoint not yet due is skipped untouched; a good probe clears its failures, a bad one backs off by at most ten intervals |
| Backoff.BackoffInvariant | providers/multiLocal.go:238-283 | over every interleaving of check sections and passive failures: no failures counted iff no next check set, the next check is the last failed probe plus as many intervals as failures counted, ten at most, and an endpoint in service has one only between the two sections that record its good probe |
| Backoff.RecoveryHasAWindow | providers/multiLocal.go:262-275 | that window is there: a recovering endpoint is in service with its old next check until the second section has run |
| Backoff.FailedEndpointIsProbedInTime | providers/multiLocal.go:145-149 | a passively failed endpoint is probed by the very next check, and an endpoint out of service rejoins at the first good check after its bounded delay |
| Backoff.OutageBacksOff | providers/multiLocal.go:255-275 | in an outage the k-th failed probe puts the next one k intervals off, ten from the tenth on; a check before then changes nothing, and a good probe ends it |
| RecencySpec.CacheHoldsLastPuts | routing/cache.go:35-84 | over every history: keys distinct, capacity respected, and each item is the last put of its key with the expiry that put gave it |
| RecencySpec.GetReturnsLastPut | routing/cache.go:35-55 | a get only ever returns the value last put under its key, and only while that has not expired |
| RecencySpec.RecentKeyIsRetained | routing/cache.go:57-84 | a key is still there if fewer than capacity other keys were put or hit since its last touch and it has not expired |
| LruCache.Cache.Get | routing/cache.go:35-55 | on map and list, keeps both mutually consistent and does to their contents what the recency sequence does: hit to front, expired entry gone, miss without effect |
| LruCache.Cache.Put | routing/cache.go:57-84 | on map and list, rewrites in place or pushes in front and evicts the last entry when full, as the recency sequence does |
| Memo.RunIsTransparent | routing/classifier.go:80-173 | for a deterministic backend and an injective hash, every sequence of questions through the cache is answered as without one, whatever expires or is evicted |
| Memo.InterleavingIsTransparent | routing/cache.go:35-84 | so is every question of any number of concurrent ones, however their lookups and stores interleave |
| Memo.AnswerIsRemembered | routing/cache.go:35-84 | a stored answer serves the next question about its text until it expires, storing nothing again and extending no lifetime |
| Memo.CollisionIsVisible | routing/cache.go:86-89 | injectivity is needed: two colliding texts with different answers are answered wrongly |
| Requests.LastUserIsLast | routing/embeddings.go:160-167 | nothing without a user message, otherwise the content of the one no user message follows |
| Requests.LastUserMessage | routing/embeddings.go:160-167 | the backward search finds that message |
| Classifier.BuildPrompt | routing/classifier.go:175-194 | the prompt depends on the request only through its last user message |
| Classifier.PromptSaysEverything | routing/classifier.go:175-194 | the prompt begins with the configured instruction or the default for a blank one, ends with the user's text, whole, and the reply format, and has a line for every route |
| Classifier.FencedReplyIsUnwrapped | routing/classifier.go:197-209 | a reply's JSON is recovered bare or inside either fence, with any blank space around it |
| Classifier.FirstNamed | routing/classifier.go:163-170 | the first route whose name matches the category, or none when no name does |
| Classifier.VerdictComesFromReply | routing/classifier.go:97-173 | a verdict is the first route matching the category the reply decodes to, with the confidence it gives, and each failure names what went wrong |
| Classifier.ClassifierMatcher.constructor | routing/classifier.go:33-71 | the cache exists exactly when configured, with 500 entries and 3600 seconds for non-positive settings, and lifetimes in seconds |
| Classifier.ClassifierMatcher.Classify | routing/classifier.go:80-173 | the verdict is the one a matcher without a cache gives, failures are never cached, and the cache moves as one question |
| Classifier.ClassifierMatcher.Request | routing/classifier.go:97-173 | the uncached verdict: the reply of the model to the prompt, unwrapped, decoded and matched to a route |
| Vector.Cosine | routing/vector.go:7-24 | the accumulator loop computes the normalized product, in [-1, 1], one for equal non-zero vectors and zero for vectors of different lengths or without length |
| Vector.CauchySchwarz | routing/vector.go:11-23 | the loop's sums satisfy dot squared at most the product of the squared norms, at every iteration |
| Vector.CosineInRange | routing/vector.go:7-24 | every score lies in [-1, 1], for all vectors |
| Vector.ScoreTimesNormsIsDot | routing/vector.go:12-23 | for non-zero vectors of one length the score times both norms is the product of the vectors |
| Vector.CosineOfSelf | routing/vector.go:7-24 | a non-zero vector scores one with itself |
| Vector.MultipleScoresTheSame | routing/vector.go:7-24 | only direction matters: a positive multiple of a vector scores the same |
| Vector.DotWithUnit | routing/vector.go:12-16 | the product with a unit vector reads one component, so every component counts, and once |
| Vector.Centroid | routing/vector.go:27-47 | the in-place loops leave the element-wise average in the array |
| Vector.CentroidAverages | routing/vector.go:27-47 | the product of the centroid with any vector is the average product of its vectors |
| Embeddings.Similarity | routing/embeddings.go:134-158 | the score in each of the three comparisons, in [-1, 1] |
| Embeddings.ScoresInRange | routing/embeddings.go:134-158 | every score of every comparison lies in [-1, 1] |
| Embeddings.MaxScoreIsHighest | routing/embeddings.go:136-143 | the maximum comparison yields the highest cosine of all exemplars, or zero when none is positive |
| Embeddings.MaxAtLeastAverage | routing/embeddings.go:136-154 | the maximum score is never below the average score |
| Embeddings.AverageIsMean | routing/embeddings.go:145-153 | the average score times the number of exemplars is the sum of their cosines |
| Embeddings.BestRoute | routing/embeddings.go:120-131 | the first route that attains the highest positive score, or none when no score is positive |
| Embeddings.BestIsUnique | routing/embeddings.go:120-131 | at most one match is best |
| Embeddings.EmbeddingMatcher.constructor | routing/embeddings.go:45-55 | the cache exists exactly when configured, with 1000 entries and 3600 seconds for non-positive settings, and lifetimes in seconds |
| Embeddings.EmbeddingMatcher.Embed | routing/embeddings.go:103-118 | the embedding is the embedder's own, the cache moves as one question, and a cached missing vector is asked for again |
| Embeddings.EmbeddingMatcher.FindMatch | routing/embeddings.go:91-132 | the match is the one a matcher without a cache gives for the last user message, cut to 2048 characters |
| Embeddings.TruncatedIsPrefix | routing/embeddings.go:99-101 | what is embedded is the text itself up to 2048 characters, else its first 2048 |
| Embeddings.MatchIsDetermined | routing/embeddings.go:91-132 | that match is unique, so cached and uncached matchers cannot differ |

## Left out

- StalenessTheorems.IdleEvaluatorMeansFresh: freshness holds up to the time between the evaluator's clock reading and the start of its timer, because the code takes these two steps apart; `StalenessTheorems.FreshExactlyWithoutLag` says exactly when it is strict.
- StalenessTheorems.HealthyRun: ideal conditions (timers and commits served at once, loads within the timeout, loads the store accepts) are hypotheses on the run, as scheduling delays have no bound in the code.
- KeyStore.Store.Install: source states are map values rather than shared objects; the deep copy itself is modelled on the heap by `KeyCopy.Clone`.
- KeyStore.Store.Recompose: the log of shadowed digests and shared names is not modelled.
- KeyPolling.PollingIsCoherent: the server's tag determining its document is a hypothesis; a server that reuses a tag breaks any client. One source loads one document at a time, as its single runner does.
- KeyConfig.HealthySourceNeverExcluded: the read time of a file source is bounded by a hypothesis, because the code sets it no timeout.
- KeyConfig.ValidateSource: whether an endpoint URL is absolute http(s) is a parameter of the model, and token and environment settings are not part of it.
- Pool.MultiLocal.ChatCompletion: one call undisturbed by others; `ChatCompletionStream` runs the same loop. Which errors count as network errors is the outcome each attempt is given.
- Pool.MultiLocal.Next: the counter is at least one round below 2^63; what the index arithmetic does beyond is `Rotation.MachineIndexIsRotation`.
- Pool.MultiLocal.CheckAll: the staggering sleep and the two probe requests behind one health answer are not modelled.
- SseWriter.SSEWriter.HandleStreamingCompletion: writes to the client do not fail, and the single log line about a differing upstream model is left out.
- SseClient.StreamCompletion: the stream is a sequence of characters, so UTF-8 decoding across cuts is not modelled; the model-name callback is left out.
- AnthropicStream.ReadSSEStream: lines come as the scanner and the JSON decoder classify them; buffer limits, the cancelled context and the usage and created fields are left out.
- AnthropicRequest.TranslateMessages: model, limits, tools, tool choice and stop sequences of the request are left out.
- Classifier.ClassifierMatcher.Classify: the method is one question at a time; concurrent ones are `Memo.InterleavingIsTransparent`. The model call, the JSON decoder and Unicode case folding are deterministic functions, so timeouts are failures of that function.
- Vector.Cosine: arithmetic is over the reals with an exact root, so floating-point rounding is not modelled.
- Embeddings.EmbeddingMatcher.constructor: embedding the exemplars and rejecting an unknown comparison or an empty route list are left out.
- Generations and deadline versions are unbounded, where the code has 64-bit counters that would wrap after 2^64 publications.
- Go's time arithmetic saturates at its range; instants here are unbounded nanoseconds.
- SHA-256 and digest parsing are functions, injective where a theorem says so; JSON and YAML decoding, `StripNullableRecordFields` and timestamps arrive decoded; the JSON encoder's output is one line in braces that a decoder reads back, chunks and errors apart.
- The linked list of the cache is a sequence of shared entries; its pointers are not modelled.
- File watching, network clients, health probe transport, metrics, logging and error wording.
- The routing cascade, provider prefixes, heuristics, capability models, model lists, settings and the user interface beyond the stream parser: mostly case analysis.
