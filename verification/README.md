# Bifrost API: verified models

Dafny models of the parts of the Bifrost API that hold state, rewrite documents or compute: the message-center
fan-out, the OpenAPI merge, contract keys and calendar arithmetic, statistics and selection loops, the ingest lease
sweep, and route templates. Each module starts with what it models. `dafny verify dfyconfig.toml` checks everything.

| part | modules |
|---|---|
| queues and the message-center reader | `FanOut`, `EventHub`, `MessageProtocol`, `MessageSafety`, `MessageDelivery`, `SubscriberDelivery`, `MessageCenter`, `ReaderStart` |
| OpenAPI merge | `Json`, `MergeOpenApi`, `DocsApi` |
| dates, expiries, strikes, contract keys | `Calendar`, `Expiries`, `Strikes`, `ContractKeys` |
| route templates and successor links | `Percent`, `Routes`, `Deprecations` |
| ingest services | `IngestHealth`, `LeaseProtocol`, `MarketIngest`, `ServiceRows` |
| inspector, IV and liquidity statistics, put/call rollup | `FiscalQuarter`, `FirstWins`, `Inspector`, `RealSums`, `RelativeValue`, `Liquidity`, `PcrTrend`, `PcrChain` |
| screener | `StrikeLadder`, `Score`, `PutKeys`, `KeyTable`, `Screener`, `Screen` |
| shared | `Sequences`, `Text`, `TextOrder`, `Sorting`, `Collecting`, `Rounding` |

A protocol is a state machine whose runs are arbitrary sequences of actions, failures and restarts included; a class
beside it (`EventHub.Hub`, `MessageCenter.MessageCenter`, `MarketIngest.Services`) has the source's mutable fields
and loops, and each of its methods is tied to the state machine or to a function of the old state. Redis is a field
or a map, the clock a parameter, and an answer of a store an arbitrary value.

## Where the code and a promise differ

- Fan-out is at most once. The local cursor moves before it is persisted, and the persisted cursor before the
  fan-out, so a message is lost once the persisted cursor passes it without a fan-out: after a failed cursor write
  when the same reader goes on with a later batch, or when the fan-out is cut short by an exception or by the end of
  the thread or the process. What can still arrive is `MessageDelivery.ArrivesIff`, the runs that lose nothing are
  those of `FanOutIsExactIff`, and `FailedCursorWriteLosesBatch` is an input. What of it reaches one subscriber is
  `SubscriberDelivery.SubscriberMissesNothingIff` and, up to the client, `EveryEventArrivesIff`.
- References inside a merged component body are not rewritten. One that resolved at home dangles
  unless main or a secondary happens to have a component at the place it names
  (`MergeOpenApi.NestedReferenceDanglesIff`, an input is `NestedReferenceDangles`), and a whole body keeps its meaning
  exactly under `ComponentKeepsMeaningIff`.
- The compact expiry normalisers are not idempotent on a dashed text whose tenth character is blank
  (`Expiries.CompactNotIdempotent`); the exact condition is `Expiries.CompactIdempotentIff`.
- A contract key printed for a year before 1000 does not read back, since that year is printed without padding
  (`ContractKeys.PrintThenParse`, `ParsePrintParse`).
- A route pattern accepts a newline at the end of the path, and then one template can match in two ways
  (`Routes.NewlineMatchesTwice`): exactly where it ends in a parameter, matches, and the newline follows no slash
  (`OneRenderingIff`). A group such as `{:int}` makes the two compilers differ (`Deprecations.CompilersAgreeIff`).
- The services table is documented as read only, but a request deletes orphaned leases. One failed read of a lease's
  age, or a rewrite between decision and delete, deletes a fresh lease (`LeaseProtocol.FailedReadLosesFreshLease`,
  `RaceLosesFreshLease`). The actions that take a fresh lease away are those of `FreshLossByIff`, and when a sweep that
  has read everything takes it away at once is `FreshLossIff`. How often a lease has to be rewritten to be safe is
  `AttendedLeaseIsKeptIff`, as long as every read of its age succeeds and the health hash it lives on does not expire.
- An inspector cap below 1 still shows one row (`FirstWins.CapIsKeptIff`). Two rows of one year without a quarter are
  both shown, under the same key (`Inspector.TwoRowsShareKey`); the lines are unique under
  every cap exactly where no such rows are given (`EveryCapIsUniqueIff`).
- The window of a derived fiscal quarter is 365 days long, so a leap day or a 53rd week leaves days without a quarter
  (`FiscalQuarter.NoGapIff`).
- A symbol with bars whose fourth part is a number and whose fifth is "P" makes the screener read that number as the
  strike of every put it asks for (`PutKeys.ReadKeyOfPutKey`, `SymbolWithOwnStrike`), so the strikes returned are on
  its ladder exactly when that number happens to be (`Screener.StrikesOnLadderIff`).
- A contract's rating is decided before its score is rounded, so a shown 75.0 can be rated B
  (`Score.RatingMatchesShownScoreIff`).

## Assumptions about code that is not part of this model

- The stream read returns the next contiguous segment of an append-only stream with increasing ids; the queue put
  drops the head when the queue is full, then appends.
- The health keys of `bifrost_core` are parameters (`ServiceRows.Keys`): stripped, non-empty texts.
- The Black-Scholes probability is an arbitrary function, and the square root any function that is one.

## Model

| member | source | states |
|---|---|---|
| FanOut.EveryRunKeepsQueues | src/bifrost_api/market/app.py:128-135 | In every interleaving of registrations, broadcasts, callbacks, reads, disconnects and process restarts each queue stays bounded, holds a contiguous suffix of what was put, and what was received and sent is an in-order part of the offers; every live subscriber is registered exactly once |
| FanOut.ReceivedIsInOrder | src/bifrost_api/market/routers/quotes.py:239-263 | What a subscriber was sent is a subsequence of what it was offered |
| FanOut.AllIsSentIff | src/bifrost_api/market/routers/quotes.py:246-256 | What a client received and was not sent are the items that could not be encoded, one for each step that took one: everything received was sent exactly when there was none |
| FanOut.NothingLostIffNothingDropped | src/bifrost_api/monitor/routers/messages.py:114-131 | Received followed by waiting is everything that was put exactly when nothing was pushed out |
| EventHub.ScheduleAllOnce | src/bifrost_api/market/app.py:128-135 | A broadcast reaches every queue of the snapshot exactly once, in list order, and no other queue |
| EventHub.Hub.Register | src/bifrost_api/market/routers/quotes.py:239-242 | A new queue is appended to the list: the new state is the state machine's |
| EventHub.Hub.Unregister | src/bifrost_api/market/routers/quotes.py:259-263 | The queue leaves the list; every other queue stays |
| EventHub.Hub.Broadcast | src/bifrost_api/market/app.py:128-135 | The loop over the snapshot schedules one callback per registered queue, none without an event loop |
| EventHub.Hub.RunCallback | src/bifrost_api/market/app.py:134-135 | The event loop runs the oldest callback: the item is appended, and the oldest one dropped exactly when the queue is full; no other queue changes |
| EventHub.Hub.Get | src/bifrost_api/market/routers/quotes.py:246-256 | The head of the queue is taken and received; it is sent exactly when it can be encoded, and nothing else changes |
| MessageSafety.EveryRunKeepsInv | src/bifrost_api/monitor/routers/messages.py:42-73 | Every run keeps the cursor and offer invariants, whatever Redis calls fail and whether the reader thread ends alone, with its queues still registered, or the whole process does |
| MessageSafety.FanOutIsIncreasing | src/bifrost_api/monitor/routers/messages.py:58-69 | The fan-out sequence is strictly increasing in stream id, and every fanned-out id is at most the persisted cursor, which is at most the local cursor |
| MessageSafety.MaterializedUpToCursor | src/bifrost_api/monitor/routers/messages.py:44-62 | Every event entry at or below the persisted cursor went through a completed materialize call |
| MessageSafety.OnlyBodiesAreFannedOut | src/bifrost_api/monitor/routers/messages.py:48-57 | Only messages for which materializing yielded a body are fanned out |
| MessageSafety.NoSubscriberSeesTwice | src/bifrost_api/monitor/routers/messages.py:63-69 | No queue, of this process or an earlier one, receives a message twice or out of order, also when the reader dies and a new one starts at a lower cursor |
| MessageDelivery.FanOutIsExactIff | src/bifrost_api/monitor/routers/messages.py:44-69 | The fan-out sequence and the rest of the batch are exactly the events up to the persisted cursor, each once and in order, exactly when no step of the run was one that loses: a cursor write that takes effect over events the reader does not go on to fan out; an exception in the fan-out before the last message; an end of the thread or the process with a batch left |
| SubscriberDelivery.SubscriberMissesNothing | src/bifrost_api/monitor/routers/messages.py:63-69 | If every offer reaches its queue, a live subscriber has been offered exactly the messages fanned out from its registration on, or from the end of the fan-out it came into, up to one still on its way to it, whatever else failed or restarted |
| SubscriberDelivery.SubscriberMissesNothingIff | src/bifrost_api/monitor/routers/messages.py:63-69 | In every run a live subscriber was offered as many messages as were fanned out from its start on, less one for each step that kept one from it: a closed loop at its turn, or an exception or the end of the thread while it waits; so it was offered exactly those messages, in order, exactly when there was no such step |
| SubscriberDelivery.EveryQueueWasRegistered | src/bifrost_api/monitor/routers/messages.py:111-116 | Every live queue of any run is that of one of its registrations, so this covers all of them |
| SubscriberDelivery.EveryEventArrivesIff | src/bifrost_api/monitor/routers/messages.py:44-69 | In a run that loses nothing before the fan-out, what was sent to a live subscriber, followed by what waits in its queue and on the event loop, is every event of the stream up to the persisted cursor from its start on, exactly when no step kept one from it and nothing was pushed out of its queue |
| SubscriberDelivery.AllReceivedIsSent | src/bifrost_api/monitor/routers/messages.py:111-123 | Whatever a stream subscriber takes from its queue, which has room for 100, is sent to it |
| MessageDelivery.FailedCursorWriteLosesBatch | src/bifrost_api/monitor/routers/messages.py:58-73 | A run with one failed cursor write: entry 1 is covered and materialized, and neither was nor ever will be fanned out |
| MessageDelivery.LostForGood | src/bifrost_api/monitor/routers/messages.py:58-69 | After any run, an entry at or below the persisted cursor that was not fanned out and is not left in the batch is fanned out in no continuation |
| MessageDelivery.ArrivesIff | src/bifrost_api/monitor/routers/messages.py:43-73 | The fate of every event after any run: some continuation fans it out exactly when it lies beyond the persisted cursor, was fanned out, or is left in the batch |
| MessageCenter.PassIsARun | src/bifrost_api/monitor/routers/messages.py:43-73 | A pass of the imperative loop is a run of the protocol |
| MessageCenter.MessageCenter.EnsureReaderStarted | src/bifrost_api/monitor/routers/messages.py:78-90 | Nothing changes while a reader is alive; else a new one starts at the persisted cursor |
| MessageCenter.MessageCenter.ReaderEnds | src/bifrost_api/monitor/routers/messages.py:42-73 | The thread ends alone: the queues and what they hold stay |
| ReaderStart.AtMostOneReader | src/bifrost_api/monitor/routers/messages.py:78-90 | However requests and thread ends interleave, the lock admits at most one live reader |
| ReaderStart.LockIsNeeded | src/bifrost_api/monitor/routers/messages.py:78-90 | Without the lock two requests start two readers |
| MessageCenter.MessageCenter.LoopPass | src/bifrost_api/monitor/routers/messages.py:43-73 | One pass ends in the state the protocol reaches for the same outcomes of the Redis calls, and keeps the invariant |
| MessageCenter.MessageCenter.Materialize | src/bifrost_api/monitor/routers/messages.py:48-57 | The loop over a segment: an exception leaves the cursor where it was |
| MessageCenter.MessageCenter.FanOutMessages | src/bifrost_api/monitor/routers/messages.py:63-69 | Each message is offered to the same snapshot of queues |
| MessageCenter.MessageCenter.StreamSystemMessages | src/bifrost_api/monitor/routers/messages.py:111-116 | A subscriber first makes sure of a reader, then registers a queue of 100 |
| Json.MapRefsAgree | src/bifrost_api/docs_api/merge_openapi.py:84-95 | Two reference rewritings of a document agree exactly when they agree on every reference it holds |
| Json.OnlyRefsAreReplaced | src/bifrost_api/docs_api/merge_openapi.py:84-95 | A field is replaced exactly when its key is "$ref" and its value a text; keys stay, and so does every other scalar |
| Json.RefsHeld | src/bifrost_api/docs_api/merge_openapi.py:84-95 | The references of a document are the texts under "$ref" in its objects, at any depth |
| MergeOpenApi.OwnReferenceResolves | src/bifrost_api/docs_api/merge_openapi.py:41-58 | After the whole fold a secondary's reference to one of its components resolves to that very body |
| MergeOpenApi.OwnComponentSurvives | src/bifrost_api/docs_api/merge_openapi.py:41-58 | With distinct underscore-free prefixes no two secondaries' components collide |
| MergeOpenApi.SecondaryKeepsMeaning | src/bifrost_api/docs_api/merge_openapi.py:84-120 | A part of a secondary keeps its one-level meaning exactly when no reference that dangles at home names a place that main or a secondary fills |
| MergeOpenApi.PathKeepsMeaning | src/bifrost_api/docs_api/merge_openapi.py:97-106 | A surviving secondary path means in the result what it meant at home, under exactly that condition |
| MergeOpenApi.PathsAre | src/bifrost_api/docs_api/merge_openapi.py:100-106 | The paths of the result are main's, unchanged, and for every other path the rewritten one of the first secondary that has it; there are no more |
| MergeOpenApi.ReferenceIsRenamed | src/bifrost_api/docs_api/merge_openapi.py:41-58 | A reference "#/components/section/name" to a component of the secondary becomes "#/components/section/prefix_name" |
| MergeOpenApi.PathReferenceIsRenamed | src/bifrost_api/docs_api/merge_openapi.py:84-106 | After the whole fold a surviving path that is such a reference has that new name |
| MergeOpenApi.ComponentIsUnderItsNewName | src/bifrost_api/docs_api/merge_openapi.py:41-58 | And under the new name the component is found, its body unchanged |
| MergeOpenApi.InfoOfFold | src/bifrost_api/docs_api/merge_openapi.py:73-79 | The result's title is fixed, its description names the last two documents, and its version stays main's |
| MergeOpenApi.MergeFailsIff | src/bifrost_api/docs_api/merge_openapi.py:108-120 | A merge raises exactly for a tag of main without a name, a tag name that is an array or object, or a section that is no object in main |
| MergeOpenApi.TagsAre | src/bifrost_api/docs_api/merge_openapi.py:108-113 | The tags of the result are main's, followed by what each secondary adds |
| MergeOpenApi.AddedTagOrigin | src/bifrost_api/docs_api/merge_openapi.py:108-113 | Each added tag is a rewritten tag of one secondary whose name was not in use before |
| MergeOpenApi.AddedTagsAre | src/bifrost_api/docs_api/merge_openapi.py:108-113 | The added tags are exactly the rewritten tag objects of a secondary whose name neither main nor an earlier secondary uses: none is left out |
| MergeOpenApi.TagKeepsMeaning | src/bifrost_api/docs_api/merge_openapi.py:98-113 | Each added tag keeps its one-level meaning under the same condition |
| MergeOpenApi.MainSurvives | src/bifrost_api/docs_api/merge_openapi.py:71-120 | Main's paths, leading tags and every component whose place no secondary fills stay through the whole fold |
| MergeOpenApi.MainComponentsSurvive | src/bifrost_api/docs_api/merge_openapi.py:115-120 | Main's components are unchanged if none of their names starts with a used prefix and "_" |
| MergeOpenApi.MainKeepsMeaning | src/bifrost_api/docs_api/merge_openapi.py:115-120 | A part of main keeps its meaning exactly when no place it refers to is taken by a different component |
| MergeOpenApi.NestedReferenceDangles | src/bifrost_api/docs_api/merge_openapi.py:54 | A concrete merge after which a reference inside a component body dangles |
| MergeOpenApi.NestedReferenceDanglesIff | src/bifrost_api/docs_api/merge_openapi.py:54 | A reference that resolved at home and is copied inside a component body dangles in the result exactly when neither a secondary nor main has a component at the place it names |
| MergeOpenApi.ComponentKeepsMeaningIff | src/bifrost_api/docs_api/merge_openapi.py:41-58 | A merged component body keeps its one-level meaning exactly when each place it names holds in the result what it held at home |
| DocsApi.RewriteCanBeUndone | src/bifrost_api/docs_api/merge_openapi.py:25-38 | Moving references to a new prefix can be undone exactly when no reference that stayed already had it (a helper of the module that nothing in it calls) |
| DocsApi.PrefixComponents | src/bifrost_api/docs_api/merge_openapi.py:41-58 | The two nested loops build the renamed sections and the map from old to new references |
| DocsApi.MergeOpenApiSpecs | src/bifrost_api/docs_api/merge_openapi.py:61-122 | The merge is the specification function, and fails exactly when a document is not mergeable |
| DocsApi.MergedOpenApiResponse | src/bifrost_api/docs_api/app.py:105-128 | The fold over the reachable secondaries, the unreachable ones named; 502 exactly when main cannot be fetched |
| DocsApi.EachIsMergedOrNamed | src/bifrost_api/docs_api/app.py:116-127 | Every secondary is either merged, with what it answered, or named as unreachable |
| DocsApi.AnswerIs | src/bifrost_api/docs_api/app.py:105-128 | 502 exactly when main did not answer, 500 exactly when a merge raises, else the fold |
| DocsApi.FailureStays | src/bifrost_api/docs_api/app.py:116-123 | A failed merge is not repaired by later secondaries |
| Calendar.FromOrdinalInverts | src/bifrost_api/research/sepa_engine/stock_option_pcr.py:61-63 | Day numbers and dates of years 1 to 9999 determine each other |
| Calendar.DaysThatExist | src/bifrost_api/research/sepa_engine/stock_option_pcr.py:56-64 | Which days exist: the lengths of the months and the leap years |
| Calendar.WeekdaysFollow | src/bifrost_api/research/sepa_engine/stock_option_pcr.py:56-64 | Day 1 is a Monday, and the days of the week follow each other |
| Calendar.ThirdFridayIffMidMonth | src/bifrost_api/research/sepa_engine/stock_option_pcr.py:56-64 | A date is the third Friday exactly when it is a Friday from the 15th to the 21st |
| Calendar.OneThirdFridayPerMonth | src/bifrost_api/research/sepa_engine/stock_option_pcr.py:56-64 | Every month has exactly one |
| Calendar.WeeklyIffOtherFriday | src/bifrost_api/research/sepa_engine/stock_option_pcr.py:67-75 | The suffix is weekly exactly for the other Fridays |
| Expiries.NormalisersAgree | src/bifrost_api/research/market_pg.py:23-57 | On both spellings of every date, the ISO one followed by anything, all normalisers denote the same day |
| Expiries.NormalizeIsIdempotent | src/bifrost_api/common/query_vocab.py:142-155 | `normalize_expiry` leaves its own output alone, on every text |
| Expiries.CompactIdempotentIff | src/bifrost_api/research/polygon_http.py:16-21 | The compact normalisers do so exactly when they did not cut a dashed text off at a blank |
| Expiries.CompactNotIdempotent | src/bifrost_api/research/routers/screener.py:110-114 | A text on which they do not |
| Expiries.NormalizingKeepsDate | src/bifrost_api/research/contract_key_bridge.py:113-128 | Normalising first never changes the date that is read, on every text |
| Strikes.StrikeRoundTrip | src/bifrost_api/research/polygon_http.py:44-45 | Reading a printed strike gives the strike back, in plain and in exponent form |
| Strikes.WholeDollars | src/bifrost_api/research/polygon_http.py:44-45 | A strike in whole dollars is printed as its digits and ".0" |
| Strikes.ExponentIff | src/bifrost_api/research/polygon_http.py:44-45 | A strike is printed with an exponent exactly below a ten-thousandth and from 1e16 on |
| ContractKeys.PrintThenParse | src/bifrost_api/research/contract_key_bridge.py:26-68 | A printed key reads back as its parts exactly when the symbol is plain, the year has four digits and the right is one of C, CALL, P and PUT in any case; calls come back as C, puts as P |
| ContractKeys.RightIff | src/bifrost_api/research/polygon_http.py:39-43 | A right is a call exactly for C and CALL, and a put exactly for P and PUT |
| ContractKeys.ParsesIff | src/bifrost_api/research/contract_key_bridge.py:26-57 | A key is parsed exactly when it is no ticker and its five parts are a symbol, OPT, a date, a strike and a call or put; each part is read from its own place |
| ContractKeys.PrintedKey | src/bifrost_api/research/polygon_http.py:33-45 | The printed text, part by part |
| ContractKeys.ParsePrintParse | src/bifrost_api/research/contract_key_bridge.py:26-68 | Parsing, printing and parsing again changes nothing, exactly when the year has four digits |
| ContractKeys.SplitContractKeys | src/bifrost_api/research/contract_key_bridge.py:85-110 | The loop with its seen-sets computes each ticker and each parsed key once, in order of first appearance |
| ContractKeys.SplitIsStable | src/bifrost_api/research/contract_key_bridge.py:85-110 | Splitting the split's own output again returns it, free of duplicates |
| ContractKeys.SplitKeepsAll | src/bifrost_api/research/contract_key_bridge.py:85-110 | No ticker and no parsable key of the request is lost |
| Percent.QuoteRoundTrip | src/bifrost_api/deprecations.py:107 | Decoding a percent-encoded UTF-8 id gives the id back |
| Percent.QuoteIsOneSegment | src/bifrost_api/deprecations.py:107 | An encoded id holds no slash |
| Percent.QuoteOfAscii | src/bifrost_api/deprecations.py:107 | Letters, digits and four marks stand for themselves, any other ASCII character is a percent sign and two hexadecimal digits |
| Routes.Compile | src/bifrost_api/deprecations.py:63-89 | Both compilers' loops compute the template's atoms |
| Routes.GroupIsParameter | src/bifrost_api/deprecations.py:75-89 | A group in braces is a parameter named by what precedes a colon |
| Routes.LiteralMatches | src/bifrost_api/deprecations.py:63-89 | A template without parameters matches its own text, with an optional slash and newline, and nothing else |
| Routes.MatchIffRendering | src/bifrost_api/deprecations.py:63-70 | A template matches a path exactly when the path is its rendering with non-empty slash-free ids, an optional slash and an optional newline |
| Routes.RenderingIsUnique | src/bifrost_api/deprecations.py:81-89 | A template with whole-segment parameters matches a path in at most one way unless it ends in a parameter and the path in a newline that follows no slash |
| Routes.OneRenderingIff | src/bifrost_api/deprecations.py:65-80 | It matches in at most one way exactly when it is not that case with a match |
| Routes.CapturesAreTheIds | src/bifrost_api/deprecations.py:81-89 | The captures are the ids the path was rendered from, on every such path |
| Routes.NewlineMatchesTwice | src/bifrost_api/deprecations.py:70 | A path with a last newline that matches in two ways |
| Deprecations.CompilersAgreeIff | src/bifrost_api/deprecations.py:63-89 | The two compilers accept the same paths exactly when no parameter group starts with a colon |
| Deprecations.ReplacedRoute | src/bifrost_api/deprecations.py:99-109 | The lookup returns the first matcher that is hit, with its link |
| Deprecations.SuccessorPathIs | src/bifrost_api/deprecations.py:105 | The successor's path is what follows its method and a blank |
| Deprecations.LiteralBeatsParameterised | src/bifrost_api/deprecations.py:92-96 | When a parameterised template answers, no literal template of the method matches the path |
| Deprecations.LinkMatchesSuccessorIff | src/bifrost_api/deprecations.py:105-107 | The link matches the successor exactly when that has no more parameters, and then decodes to the same ids |
| Deprecations.AnswerLeadsToSuccessorIff | src/bifrost_api/deprecations.py:99-109 | The whole lookup: the path renders the hit template with the captured ids, and the answer's link matches the successor exactly when that has no more parameters, and decodes to those ids |
| LeaseProtocol.AtomicSweepClearsOrphans | src/bifrost_api/ops/routers/market_ingest.py:118-150 | An atomic sweep clears exactly the orphaned lease and touches nothing else |
| IngestHealth.LiveIff | src/bifrost_api/ops/market_ingest_health_clear.py:127-155 | A service is live exactly when its heartbeat is at most 90 seconds old and one of its own flags is set |
| IngestHealth.ProfileIff | src/bifrost_api/ops/market_ingest_control_env.py:23-29 | A profile is dev, prod or stg, in any case and between blanks |
| LeaseProtocol.AttendedLeaseIsKept | src/bifrost_api/ops/routers/market_ingest.py:131-138 | With any number of sweeps at once, every read of the age succeeding and no expiry of the hash, a lease rewritten at least every period is always kept when period and decision delay together are within 120 seconds, and the daemon's whatever they are |
| LeaseProtocol.AttendedLeaseIsKeptIff | src/bifrost_api/ops/routers/market_ingest.py:131-138 | For every positive period and delay: every such run keeps the lease, no read of the age failing and the hash not expiring, exactly when the two together are within 120 seconds or the row is the daemon's |
| LeaseProtocol.ClearHasCause | src/bifrost_api/ops/routers/market_ingest.py:125-148 | When its own reads succeed, a sweep clears a lease only after the process was seen not running, the hash not live and the control time absent or past the grace, and never the daemon's, whatever other sweeps do |
| LeaseProtocol.FreshLossNeedsStaleRead | src/bifrost_api/ops/market_ingest_control_env.py:81-94 | With any number of sweeps and whatever fails and comes between, a fresh lease is lost only through a failed or outdated read of its age |
| LeaseProtocol.FreshLossIff | src/bifrost_api/ops/routers/market_ingest.py:131-148 | A sweep that has read everything deletes a fresh lease by its next two steps exactly when it saw no running process and no live service, and the age it read is missing, or past the grace and not the lease's own any more |
| LeaseProtocol.FreshLossByIff | src/bifrost_api/ops/market_ingest_control_env.py:111-125 | After any run an action takes a fresh lease away exactly when it is the expiry of the hash, or the successful delete of a sweep that has decided, having read no age or one from before the last rewrite |
| LeaseProtocol.FailedReadLosesFreshLease | src/bifrost_api/ops/market_ingest_control_env.py:92-94 | A concrete run in which one failed read loses a lease of age zero |
| LeaseProtocol.RaceLosesFreshLease | src/bifrost_api/ops/market_ingest_control_env.py:111-125 | A run from the initial state in which a rewrite between decision and delete is lost |
| LeaseProtocol.SweepsTouchNoHealth | src/bifrost_api/ops/market_ingest_control_env.py:111-125 | Sweeps, finished or not, never touch the health fields |
| MarketIngest.Services.ServeRow | src/bifrost_api/ops/routers/market_ingest.py:112-170 | One row: its lease is swept, then the row shows the lease or the stack that manages it |
| MarketIngest.Services.Serve | src/bifrost_api/ops/routers/market_ingest.py:86-95 | The loop over the rows leaves the fold of the sweeps and one item per row |
| MarketIngest.ShownAsManagedIff | src/bifrost_api/ops/routers/market_ingest.py:151-170 | A row is shown as managed exactly when it has a key, its process is not running and its stack, named by the hash or else the configuration, has a live service or is staging with a recent heartbeat |
| MarketIngest.ShownFigures | src/bifrost_api/ops/routers/market_ingest.py:112-170 | The environment, host and time that a row shows, managed or not |
| MarketIngest.SweepTakesLeaseIff | src/bifrost_api/ops/routers/market_ingest.py:118-150 | A row's sweep takes its lease exactly when the row is not the daemon's and has a lease, no live service, no control write of the last 120 seconds and no running process; other keys stay |
| MarketIngest.SweepsAtomically | src/bifrost_api/ops/routers/market_ingest.py:125-150 | A row's part of a quiet request is an atomic sweep of the protocol |
| MarketIngest.RequestClearsAllOrphans | src/bifrost_api/ops/routers/market_ingest.py:95-150 | After a request no row is orphaned, whatever rows share a key; only orphaned leases are gone and no health field changed |
| MarketIngest.SecondRequestChangesNothing | src/bifrost_api/ops/routers/market_ingest.py:95-150 | A second request at the same time finds nothing to clear |
| MarketIngest.ClearedButManaged | src/bifrost_api/ops/routers/market_ingest.py:151-170 | A row whose lease was just cleared is shown as managed exactly when its stack is staging and its writer recent |
| MarketIngest.DaemonLeaseIsKept | src/bifrost_api/ops/routers/market_ingest.py:127 | The daemon's lease outlives any request |
| ServiceRows.MarketIngestServices | src/bifrost_api/ops/market_ingest_config.py:103-162 | The loop, the default fallback and the daemon-only merge compute the specification function |
| ServiceRows.ServicesAreNormal | src/bifrost_api/ops/market_ingest_config.py:103-162 | Whatever the configuration holds, the rows are in normal form: official ids, no retired or superseded keys, a workload each, never the daemon alone |
| ServiceRows.RowIs | src/bifrost_api/ops/market_ingest_config.py:109-157 | Which rows are left out, and what each field of the others is, with its default |
| ServiceRows.MarketIsIngestor | src/bifrost_api/ops/market_ingest_config.py:41-46 | The older id ib_market stands for ib_ingestor |
| ServiceRows.KeptRows | src/bifrost_api/ops/market_ingest_config.py:108-159 | The rows kept are exactly those that normalise |
| ServiceRows.ServicesAre | src/bifrost_api/ops/market_ingest_config.py:57-64 | The default rows stand in when none is kept, and the gateway rows are put in front of a list of the daemon alone |
| ServiceRows.FixedIffNormal | src/bifrost_api/ops/market_ingest_config.py:41-64 | The lists that stay as they are when fed back are exactly those in normal form |
| ServiceRows.NormalisingIsIdempotent | src/bifrost_api/ops/market_ingest_config.py:103-162 | Feeding the rows back as configuration returns them unchanged and in order, for every input |
| FiscalQuarter.QuartersNeverTie | src/bifrost_api/research/sepa/financials_data.py:209-236 | The rounded number of quarters is never half-way between two integers |
| FiscalQuarter.QuarterBands | src/bifrost_api/research/sepa/financials_data.py:236-237 | The exact day ranges of the four quarters; none outside -45 to 319 days |
| FiscalQuarter.EndOrNeighbour | src/bifrost_api/research/sepa/financials_data.py:228-235 | A year without an end has the year before's plus 365 days, else the year after's less 365 |
| FiscalQuarter.QuarterIsMonotone | src/bifrost_api/research/sepa/financials_data.py:212-237 | A later period end never has an earlier quarter of the same year |
| FiscalQuarter.OneOfTwoYearsIff | src/bifrost_api/research/sepa/financials_data.py:229-237 | No day gets a quarter in two consecutive years exactly when their ends are at least 365 days apart |
| FiscalQuarter.NoGapIff | src/bifrost_api/research/sepa/financials_data.py:229-237 | No day in between is without a quarter exactly when they are at most 365 days apart |
| FiscalQuarter.FallbackIsExact | src/bifrost_api/research/sepa/financials_data.py:230-233 | With one annual row the fallback makes a family of the three years around it, and a date gets a quarter in exactly one of them within reach, in none elsewhere |
| FiscalQuarter.FamilyIsExact | src/bifrost_api/research/sepa/financials_data.py:209-237 | For any consecutive years whose ends are 365 days apart a date gets a quarter in exactly one of them between the first window's start and the last one's end, in none otherwise |
| FirstWins.KeepFirst | src/bifrost_api/research/sepa/financials_data.py:266-301 | The loop with its seen-set and early stop returns exactly the capped first-wins selection |
| FirstWins.KeptFacts | src/bifrost_api/research/sepa/financials_data.py:266-301 | Kept rows are in order and distinct in key, and every other row has its key taken before it or came after the table was full |
| FirstWins.CapIsKeptIff | src/bifrost_api/research/sepa/financials_data.py:284-301 | The cap is respected exactly when it is at least 1, or 0 with nothing to show |
| Inspector.IncomeRowsForInspector | src/bifrost_api/research/sepa/financials_data.py:244-303 | Both tables are the capped first-wins selection of the newest-first rows of one format |
| Inspector.FormatsNeverMix | src/bifrost_api/research/sepa/financials_data.py:166-186 | No table holds both formats, only legacy rows are dropped, and some are exactly when both formats are present |
| Inspector.NewestFirstSorts | src/bifrost_api/research/sepa/financials_data.py:240-241 | A stable newest-first permutation |
| Inspector.NewestComesFirst | src/bifrost_api/research/sepa/financials_data.py:240-241 | No row has a later period text than one above it |
| Inspector.LinesShow | src/bifrost_api/research/sepa/financials_data.py:266-301 | A line shows the year, the quarter column or the derived quarter, basic earnings per share, and revenues under either key |
| Inspector.LastEndCounts | src/bifrost_api/research/sepa/financials_data.py:259-264 | A fiscal year's end is that of the last annual row that names both |
| Inspector.NestedIsDropped | src/bifrost_api/research/sepa/financials_data.py:166-188 | Beside a row of plain scalars every row with a nested value is dropped |
| Inspector.ShownAreTheNewest | src/bifrost_api/research/sepa/financials_data.py:266-301 | Every row of the chosen format is shown, or a row at least as new has its key, or the table is full of rows at least as new |
| Inspector.TablesAreUnique | src/bifrost_api/research/sepa/financials_data.py:244-303 | Lines are unique in year and quarter wherever the quarter is known, and in year |
| Inspector.LinesAreUniqueIff | src/bifrost_api/research/sepa/financials_data.py:244-286 | Quarterly lines are unique in year and quarter exactly when no two shown rows of one fiscal year both lack a quarter |
| Inspector.EveryCapIsUniqueIff | src/bifrost_api/research/sepa/financials_data.py:244-286 | Over the rows given: the quarterly lines are unique under every cap exactly when no two rows of the chosen format and of one fiscal year both lack a quarter |
| Inspector.TwoRowsShareKey | src/bifrost_api/research/sepa/financials_data.py:266-286 | Two rows of one year without a quarter column and without an annual row are both shown, so the lines are not unique |
| RealSums.DistanceFromMean | src/bifrost_api/research/routers/option_discovery.py:431-436 | The squared distance of any value from the mean is at most n - 1 times the variance |
| RealSums.DeviationsCancel | src/bifrost_api/research/routers/option_discovery.py:431-432 | The deviations from the mean sum to 0 |
| RealSums.VarianceByMoments | src/bifrost_api/research/routers/option_discovery.py:431-432 | The variance is the mean of the squares less the square of the mean, so it divides by n |
| RelativeValue.Compare | src/bifrost_api/research/routers/option_discovery.py:399-449 | The loop and the score: rich exactly above 1, cheap exactly below -1, the label also decided without a root, and the squared score at most n - 1 |
| RelativeValue.TargetIsLast | src/bifrost_api/research/routers/option_discovery.py:401-418 | The target's IV is that of the last row with its key and an IV |
| RelativeValue.LabelNeedsOtherSide | src/bifrost_api/research/routers/option_discovery.py:431-437 | Rich needs an IV below the mean, cheap one above it |
| RelativeValue.FewContractsAreNeutral | src/bifrost_api/research/routers/option_discovery.py:420 | With fewer than three contracts every label would be neutral, so the limit loses none |
| RelativeValue.SomeContractIsNeutral | src/bifrost_api/research/routers/option_discovery.py:431-437 | At least one contract of every expiry is neutral |
| RelativeValue.ParallelShift | src/bifrost_api/research/routers/option_discovery.py:431-437 | Moving every IV by the same amount changes no label |
| Liquidity.Summarise | src/bifrost_api/research/routers/option_discovery.py:283-354 | The loop's lists, the target and both percentiles are the specification's |
| Liquidity.KeyEndsInRight | src/bifrost_api/research/routers/option_discovery.py:296 | The target's key ends in C for a call and P for a put, so it is among those compared |
| Liquidity.PercentileBounds | src/bifrost_api/research/routers/option_discovery.py:322-334 | A reported percentile lies between 100 / n and 100, and is 100 exactly when no same-right contract is above the target |
| Liquidity.SpreadIs | src/bifrost_api/research/routers/option_discovery.py:297-303 | The spread is measured exactly with three prices and a positive mid, in percent of the mid |
| Liquidity.SpreadPercentileIsRank | src/bifrost_api/research/routers/option_discovery.py:322-324 | The percentile is the number of spreads not above the target's, in percent of all |
| Liquidity.InterestPercentileIsRank | src/bifrost_api/research/routers/option_discovery.py:326-334 | The same for the open interest |
| Liquidity.RoundedHundred | src/bifrost_api/research/routers/option_discovery.py:349-352 | Rounding to one decimal keeps that for fewer than 2000 contracts |
| PcrTrend.MergeTrend | src/bifrost_api/research/sepa_engine/stock_option_pcr.py:113-167 | The points are the union of the feeds' days in strictly increasing order, each with each feed's last value or 0; the date is the latest readable one |
| PcrTrend.PointsSay | src/bifrost_api/research/sepa_engine/stock_option_pcr.py:113-165 | Each point takes puts and calls, interest and volume, from its day's last row of the right feed, and the ratios are theirs |
| PcrTrend.OrderIsUnique | src/bifrost_api/research/sepa_engine/stock_option_pcr.py:153 | There is only one such order |
| PcrChain.RollUp | src/bifrost_api/research/sepa_engine/stock_option_pcr.py:202-280 | The maxima, the filter, the sort and the bars are the specification's |
| PcrChain.LinesAreTheSurvivors | src/bifrost_api/research/sepa_engine/stock_option_pcr.py:213-253 | The lines are exactly the rows with a date and either interest, volume or at most 14 days past, by expiry, stably |
| PcrChain.SurvivesIff | src/bifrost_api/research/sepa_engine/stock_option_pcr.py:249-252 | A row is kept exactly with a readable date and interest, volume or an expiry at most 14 days ago |
| PcrChain.EarliestFirst | src/bifrost_api/research/sepa_engine/stock_option_pcr.py:253 | The lines are in order of their expiry |
| PcrChain.BarsAre | src/bifrost_api/research/sepa_engine/stock_option_pcr.py:255-280 | Each bar measures its own column, within rounding, against a scale no row of that column passes |
| PcrChain.BarsWithinScale | src/bifrost_api/research/sepa_engine/stock_option_pcr.py:255-280 | After rounding no bar passes 100, none of a non-negative value is negative, longer bars belong to larger values, and a surviving maximum has a full bar |
| PcrChain.LargestIsReached | src/bifrost_api/research/sepa_engine/stock_option_pcr.py:202-211 | Each scale is 1 or the value of some row |
| StrikeLadder.StrikesAroundSpot | src/bifrost_api/research/iv_atm.py:14-25 | The loop yields the multiples of the step from the lowest to the highest rung |
| StrikeLadder.CenterIsNearest | src/bifrost_api/research/iv_atm.py:18-19 | With a step of 5 below 200 and 10 from there on, the centre is within half a step of the spot, and even where two are equally near |
| StrikeLadder.LadderFacts | src/bifrost_api/research/iv_atm.py:14-25 | A strike is on the ladder exactly when it is a positive multiple of the step within `count` steps of the centre; the ladder increases and surrounds the spot |
| Score.ScoreRange | src/bifrost_api/research/routers/screener.py:61-84 | Scores lie in 0 to 100 for all inputs, and 100 is reached exactly when every part is measured and at its best |
| Score.ScoreIsMonotone | src/bifrost_api/research/routers/screener.py:61-84 | A contract at least as good in everything never scores less, exactly or as shown |
| Score.OnePartAtATime | src/bifrost_api/research/routers/screener.py:70-84 | Changing one input alone, from anything to anything, moves the score by its weight times the change of its part |
| Score.ScoreIsLinear | src/bifrost_api/research/routers/screener.py:76-84 | Within their bounds the five readings count in these proportions |
| Score.ScoreIsCapped | src/bifrost_api/research/routers/screener.py:76-84 | Beyond a bound a reading counts as the bound |
| Score.UnmeasuredCountsAs | src/bifrost_api/research/routers/screener.py:72-83 | A missing return counts as 0, a missing percentile as 50 and a missing spread as 15 % |
| Score.RatingBands | src/bifrost_api/research/routers/screener.py:87-94 | The limits 75, 55 and 35 |
| Score.RatingMatchesShownScoreIff | src/bifrost_api/research/routers/screener.py:87-94 | The rating agrees with the shown score exactly outside the last half tenth below a limit |
| PutKeys.PutKeyIsInjective | src/bifrost_api/research/routers/screener.py:254-261 | For any symbol a key names one expiry and one strike |
| PutKeys.ReadKeyOfPutKey | src/bifrost_api/research/iv_atm.py:28-35 | A printed put key reads back as a put exactly when the symbol has no bar or brings a strike along in its own fourth and fifth part; the strike is then the printed one or the symbol's own, and so the printed one exactly when the symbol has no bar or its own equals it |
| Screener.StrikesOnLadderIff | src/bifrost_api/research/routers/screener.py:278-286 | Where contracts are returned, every strike is on the ladder exactly when the symbol has no bar or brings along a strike that is |
| PutKeys.SymbolWithOwnStrike | src/bifrost_api/research/iv_atm.py:28-35 | A symbol of the second kind |
| KeyTable.BuildKeys | src/bifrost_api/research/routers/screener.py:255-261 | The nested loops build the table of keys and expiries |
| KeyTable.EntryIsAsked | src/bifrost_api/research/routers/screener.py:255-261 | Every entry stands for an expiry of the window and a strike |
| Screener.ScanCsp | src/bifrost_api/research/routers/screener.py:196-429 | The scan and each of its refusals, in the source's order |
| Screener.FailsForIff | src/bifrost_api/research/routers/screener.py:212-401 | Which reason a scan fails for, and when it returns a group |
| Screener.WindowIff | src/bifrost_api/research/routers/screener.py:227-239 | The window holds exactly the expiry texts that are dates within the limits |
| Screener.FiguresFromRow | src/bifrost_api/research/routers/screener.py:288-350 | Where spot, premium, probability, percentile and spread of a contract come from, field by field |
| Screener.PricedIff | src/bifrost_api/research/routers/screener.py:288-318 | Without filters a row makes a contract exactly with a positive spot and a positive premium |
| Screener.KeptIff | src/bifrost_api/research/routers/screener.py:327-366 | With filters it is that contract, kept exactly when it is within the limits given |
| Screener.ContractsAreSound | src/bifrost_api/research/routers/screener.py:278-413 | Every contract returned passes every filter whose quantity is measured, scores in 0 to 100, and answers a key of the window and the ladder, with that strike if the symbol has no bar |
| Screener.ContractsAreComplete | src/bifrost_api/research/routers/screener.py:278-413 | Every row that answers such a key is judged by its own expiry and strike, and returned if it passes |
| Screener.ReturnAndSafety | src/bifrost_api/research/routers/screener.py:352-360 | What the annualised return and the safety margin mean |
| Screener.QuotesRecoveredIff | src/bifrost_api/research/routers/screener.py:299-320 | Premium and spread give the bid and the ask back exactly when the mid is absent or their middle |
| Screener.GroupIsOfItsContracts | src/bifrost_api/research/routers/screener.py:403-413 | The group is a permutation of the contracts, the highest score first, and `best_score` their maximum |
| Screener.AverageIvIs | src/bifrost_api/research/routers/screener.py:368-404 | The average IV is the mean of the IVs there are, and absent without any |
| Screen.PostScreener | src/bifrost_api/research/routers/screener.py:435-491 | The loop over the cleaned symbols; a bad request exactly when none is left |
| Screen.ScreenAddsUp | src/bifrost_api/research/routers/screener.py:458-483 | Each occurrence of a symbol is in exactly one of groups and failed, the total is the sum of the group sizes, and the groups come by best score |
| Screen.ScannedAre | src/bifrost_api/research/routers/screener.py:454-456 | The symbols scanned are the given ones, stripped and in capitals, without the blank ones |

## Left out

- Strikes: `inf`, `nan`, digit groups with underscores and the rounding of binary floats are not modelled; a strike is a decimal in units of 1e-8.
- Text: white space, digits and case beyond ASCII.
- Expiries.NormalizeIsIdempotent: a missing value (`None`), which is returned as it is.
- FiscalQuarter.QuarterBands: dates are day numbers, so a year end moved past the year 9999 is not an error.
- MergeOpenApi.SecondaryKeepsMeaning: component section names with a slash, titles that are not texts, and the order of object keys; OpenAPI 3.0.3 section 4.7.7 fixes the section names. Only one level of references is followed, because the code does not rewrite component bodies.
- Routes.Compile: group names a regular expression refuses or that repeat, and templates whose successor holds no path.
- `deprecated_route`: the same first-match loop as `replaced_route`, without a link.
- FanOut.EveryRunKeepsQueues: a queue is a number instead of an object; timeouts and keep-alive comments change nothing and are not actions.
- MarketIngest.Services.Serve: a request without failures at one moment; failures, interleavings and the passing of time are in `LeaseProtocol`. The platform-gateway flag, the gateway heartbeat, replica counts and the display state are not in the item.
- Inspector.IncomeRowsForInspector: a year, quarter or figure is what reading it as a number gives; a date object is its text.
- RelativeValue.Compare: the IV curve (a sorted copy for display, and the error a key with an unreadable strike raises), and the rounding of the shown figures.
- Liquidity.Summarise: a value that is no number is absent.
- PcrTrend.MergeTrend: ratios are not rounded to three decimals; the reader of a day text is a parameter.
- PcrChain.RollUp: labels, ratios and the snapshot date.
- Screener.ScanCsp: notes, the IV reading's age checks and the rounding of figures other than the score; a bid, ask or open interest that is no number, which the source does not catch.
- `strikes_around_spot` collects into a set and sorts it; the rungs come in increasing order, so the model appends.
- ATM IV helpers, screener risk labels, retired query names, the display state and replica counts: one-branch decisions.
- HTTP, Redis and database clients, authentication, middleware and page layout.
