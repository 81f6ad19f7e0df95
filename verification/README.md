# Verified models of OpenClaw extension cores

This project models the stateful algorithms of OpenClaw's Anthropic, ACPX, Amazon Bedrock and
active-memory extensions in Dafny and proves what they are for. `dafny verify dfyconfig.toml`
checks it.

| modules | what they model |
|---|---|
| `Lines`, `Transcript`, `History` | reading a Claude transcript backwards page by page, and importing history over those pages |
| `OrderedMap`, `Discovery`, `DiscoveryLaws` | session discovery under a global byte budget with a bounded cache, and what it finds in terms of the rows |
| `Binary`, `Snappy`, `LevelDb`, `GroupValues` | the Snappy decoder, the LevelDB table reader and the newest-sequence merge; the encoders are the specification (Snappy compressed format description, sections 1, 2.1 and 2.2; LevelDB `doc/table_format.md`) |
| `AcpxProtocol`, `AcpxService` | the deferred ACPX runtime as a transition system, one action per await-free segment, and the objects that perform the actions |
| `ConverseBlocks`, `ConverseStream`, `ConverseLaws` | the content-block machine of a Converse stream, its event loop, and what a stream makes in terms of its items |
| `Messages`, `MessageLaws` | message conversion: grouping tool results, placing the cache point, and what each part becomes |
| `RecallProtocol`, `RecallJobs`, `RecallRuns` | the recall run registry as a transition system, under the first-in-first-out order of promise jobs, and as an object |
| `TailFollow` | following a growing transcript from a byte marker |
| `Text`, `Injection` | injecting a memory block into a prompt and stripping it again |
| `CliArgs` | normalising Claude CLI arguments |
| `ConfigMerge` | merging legacy settings, and the migration that does so, on values |
| `ConfigStore`, `ConfigSharing`, `ConfigGraph` | the merge in place on an object graph: what it changes, when it changes its input, and that on trees it is the merge on values |

Code that works step by step is modelled by methods and classes whose contracts tie the outcome to
a specification function; the theorems are about those functions. Library code (JSON, base64,
regular expressions, Unicode) appears as a function parameter or a free constructor. Size constants
are parameters.

## What the proofs turned up

- At most one ACPX service is live at a time, unless one is loaded after another was dropped
  without being stopped: by an activation that had created it and fails while its revision still
  runs, or by a stop that threw. `AcpxProtocol.TwoLiveExactlyWhen` is the exact condition over
  runs, `TwoLiveServices` a run. A service counts as live from its creation on until it is
  stopped, also when its `start` throws.
- Forgetting a run id allows a second recall beside one that is still running
  (`RecallJobs.ForgettingAllowsOverlap`); without forgetting it never happens.
- That callers which waited on one timed-out recall all join a single replacement rests on the order
  of promise jobs: their continuations are queued before the replacement's start, or, for a caller
  that comes in last, right behind it (`RecallJobs.WaitersShareOneReplacement`).
- A fulfilled recall reaches later callers exactly if no timeout cleanup was announced for it
  (`RecallProtocol.LaterCallersGetTheResultExactly`; `RecallJobs.FulfilledCanBeWithheld` is a run).
- The Snappy decoder accepts streams the format does not have: offset bytes missing after the tag
  of a last copy read as 0. `Snappy.DecodeExact` says exactly which streams are accepted.
- A missing argument list is the one case in which normalising twice differs from normalising once
  (`CliArgs.NormalizingTwice`).
- The in-place merge can write into the configuration it was given. It does so for some legacy
  record exactly when two open paths from the target lead to one record
  (`ConfigSharing.InputStaysExactly`); `SharedRecordIsWritten` is one such input.
- A legacy key named like a member every JavaScript object inherits, such as `toString`, is never
  filled in, because reading it from the target finds something (`ConfigMerge.LegacyFills`).

## Model

| member | source | states |
|---|---|---|
| `Lines.NewestIsReversedItems` | extensions/anthropic/session-catalog.ts:1204-1221 | the lines met by scanning backwards, parsed, are the reversal of the plain forward split of the same prefix, parsed |
| `Lines.NewestRestart` | extensions/anthropic/session-catalog.ts:1213-1214 | restarting at the byte offset of an item yields exactly the items after it |
| `Lines.NewestOfPrefix` | extensions/anthropic/session-catalog.ts:1176-1180 | the items before an offset depend on no byte from that offset on |
| `Lines.ItemsAreLines` | extensions/anthropic/session-catalog.ts:1204-1237 | the items are exactly the lines, from a line start to the next newline or the end, that are not empty and parse, each with the offset of its first byte |
| `Transcript.FillWindow` | extensions/anthropic/session-catalog.ts:1191-1201 | whatever non-zero counts the single reads return, the window ends up holding exactly the bytes asked for |
| `Transcript.ScanWindow` | extensions/anthropic/session-catalog.ts:1203-1221 | a right-to-left scan of one window, with fragments of later windows pending, finds exactly the lines its newlines complete, with their file offsets |
| `Transcript.CloseWindow` | extensions/anthropic/session-catalog.ts:1225-1237 | what is left of a window becomes the first line of the file, or one more fragment of the pending line |
| `Transcript.FindItems` | extensions/anthropic/session-catalog.ts:1180-1238 | for every chunk size and every pattern of short reads the backward scan finds what splitting the prefix on newlines and parsing each line finds, up to one more than the limit or to what the scan limit lets complete |
| `Transcript.SelectFitting` | extensions/anthropic/session-catalog.ts:1242-1255 | the page takes the longest front of the items whose sizes fit the cap, but always the first |
| `Transcript.ReadPage` | extensions/anthropic/session-catalog.ts:1155-1270 | the page, its cursor and its two errors are a function of the file before the cursor, the limit and the byte caps: chunk size and short reads do not show |
| `History.PageOfIsStep` | extensions/anthropic/session-catalog.ts:1239-1266 | every returned page is a front of the remaining items; its cursor is the start of its last item, below the page end, and is absent only when nothing is left |
| `History.PageIsLongest` | extensions/anthropic/session-catalog.ts:1239-1266 | from the transcript alone: a page is refused exactly if the file exceeds the scan limit and fewer than the items asked for start inside it; otherwise it holds as many of the newest items as the limit and the byte cap allow, and its cursor is there exactly if something is left or unread and its last item is not the first line |
| `History.AppendKeepsPage` | extensions/anthropic/session-catalog.ts:1174-1266 | appending to the file never changes a page at an earlier cursor |
| `History.WalkYieldsEveryItem` | extensions/anthropic/session-catalog.ts:1256-1266 | following cursors from the end until there is none yields every parseable line once, newest first, whatever limits are asked for |
| `History.WalkCursorsDecrease` | extensions/anthropic/session-catalog.ts:1256-1264 | the cursors of a walk strictly decrease, even when one item exceeds the page cap |
| `History.ReadBoundedHistory` | extensions/anthropic/session-catalog.ts:1642-1672 | imported history is the longest newest-first front with at most the item limit and within the byte cap (the first item always allowed), however it was paged and while the file grows; it fails if and only if a page asked for before that front is complete fails on the file as first read; the page loop ends |
| `Lines.LinesBetweenAreRead` | extensions/anthropic/session-upstream-activity.ts:143-143 | the lines between two offsets, described by where they start and stop, are those the plain front-to-back split reads |
| `Discovery.ScanFile` | extensions/anthropic/session-catalog.ts:777-885 | the chunked scan with its carried-over buffer gives the verdict and the cost of inspecting the complete lines of the prefix it reads |
| `DiscoveryLaws.VerdictIsSaid` | extensions/anthropic/session-catalog.ts:791-853 | from the rows alone: a file makes a record exactly if its first row that settles anything is a CLI prompt, named by the last title before it and otherwise by that prompt, with that row's fields; a sidechain, foreign or no verdict likewise |
| `DiscoveryLaws.ScanIsSaid` | extensions/anthropic/session-catalog.ts:854-885 | reading stops at the first chunk boundary by which a complete line settles the file, or at the cap, and the scan says what the lines read say |
| `Discovery.BudgetDoesNotBite` | extensions/anthropic/session-catalog.ts:877-884 | a scan that ends below the remaining budget, or whose full cost still fits it, equals the unconstrained scan |
| `Discovery.ReplayIsCold` | extensions/anthropic/session-catalog.ts:742-775 | replaying a truthful cache entry that still fits the budget is the step a scan with no cache takes |
| `Discovery.StoredIsTruthful` | extensions/anthropic/session-catalog.ts:881-901 | the entry stored after a scan the budget did not cut short records the unconstrained scan and its cost |
| `Discovery.Catalog.Visit` | extensions/anthropic/session-catalog.ts:729-906 | one candidate, through the cache or not: same records, sidechain ids and charged bytes as without a cache, and the cache stays truthful |
| `Discovery.Catalog.Rescan` | extensions/anthropic/session-catalog.ts:777-905 | a rescan charges its bytes, and stores only what an unconstrained scan would have found |
| `Discovery.Catalog.Discover` | extensions/anthropic/session-catalog.ts:684-915 | for every file set and every history of earlier scans the outcome, including the cut-off by the global byte budget, is that of a scan with no cache; an authoritative scan leaves only listed entries of its root |
| `DiscoveryLaws.DiscoveryFinds` | extensions/anthropic/session-catalog.ts:720-906 | from the rows alone: candidates are scanned in directory order, each with what is left of the budget and unless its session was found before, until the budget is used up, and exactly the records and sidechains their files speak of are added |
| `Discovery.Catalog.Evict` | extensions/anthropic/session-catalog.ts:907-913 | exactly the unseen entries of the root are dropped |
| `OrderedMap.SetBounded` | extensions/anthropic/session-catalog.ts:209-223 | re-inserting as newest and evicting oldest entries while there are too many |
| `OrderedMap.BoundedMembers` | extensions/anthropic/session-catalog.ts:209-219 | the new entry is there, all others were there before, keys stay distinct, the bound holds |
| `OrderedMap.NewestStay` | extensions/anthropic/session-catalog.ts:209-219 | an older entry stays exactly if the bound has room for it, the entries newer than it and the new one |
| `Binary.ReadVarint` | extensions/anthropic/claude-desktop-groups.ts:41-58 | the loop over at most ten bytes returns the varint that stands at the offset, or which of the two errors ended it |
| `Binary.VarintInverts` | extensions/anthropic/claude-desktop-groups.ts:41-58 | a varint of at most ten bytes is read back wherever it stands |
| `Binary.ReadLEInverts` | extensions/anthropic/claude-desktop-groups.ts:85-88 | reading a little-endian number undoes writing it |
| `Snappy.CopyBack` | extensions/anthropic/claude-desktop-groups.ts:118-124 | the byte-by-byte copy over the output array appends the last `distance` bytes repeated to the length, also when it overlaps itself, and changes nothing else |
| `Snappy.RepeatedStep` | extensions/anthropic/claude-desktop-groups.ts:121-124 | the byte `distance` before the write position is the byte i mod d of the repeated stretch |
| `Snappy.DecodeElement` | extensions/anthropic/claude-desktop-groups.ts:69-125 | one literal or copy decoded in place: same output, offset and errors as the specification; the offset strictly increases and writes stay in bounds |
| `Snappy.DecodeSnappy` | extensions/anthropic/claude-desktop-groups.ts:60-130 | the in-place decoder equals the specified decoder, which accepts only outputs of exactly the announced length |
| `Snappy.DecodeExact` | extensions/anthropic/claude-desktop-groups.ts:60-130 | the decoder accepts a stream if and only if it denotes a list of elements whose meaning has the announced length within the block limit, and returns that meaning |
| `Snappy.DecodeInvertsCompress` | extensions/anthropic/claude-desktop-groups.ts:60-130 | decoding undoes encoding for every well-formed element list within the block size |
| `Snappy.MissingOffsetByteIsAccepted` | extensions/anthropic/claude-desktop-groups.ts:101-117 | more lenient than the format: a copy without its last offset byte is accepted, the byte read as 0 |
| `LevelDb.ForEachEntry` | extensions/anthropic/claude-desktop-groups.ts:148-181 | the entry loop visits what the recursive reading visits, up to the same error |
| `LevelDb.VisitInvertsEncode` | extensions/anthropic/claude-desktop-groups.ts:148-181 | reading a block undoes writing it, for every entry list, every legal choice of shared prefixes and every restart array |
| `LevelDb.VisitEndsAtError` | extensions/anthropic/claude-desktop-groups.ts:148-181 | a block is visited entry after entry up to the first that is in error, which ends it |
| `LevelDb.RestartBytesUnused` | extensions/anthropic/claude-desktop-groups.ts:159-173 | bytes of the restart array are never used as entry data |
| `LevelDb.ReadBlock` | extensions/anthropic/claude-desktop-groups.ts:132-146 | a block is returned raw or decompressed as its trailer says, with the three error cases |
| `LevelDb.ReadDataBlocks` | extensions/anthropic/claude-desktop-groups.ts:183-201 | the data blocks of a table through footer and index, as specified |
| `LevelDb.TableIsRead` | extensions/anthropic/claude-desktop-groups.ts:183-201 | footer and index handles recover every data block of a table in index order, raw or compressed |
| `GroupValues.ReadVersion` | extensions/anthropic/claude-desktop-groups.ts:205-213 | the loop over the seven sequence bytes takes an internal key apart as specified |
| `GroupValues.VersionInverts` | extensions/anthropic/claude-desktop-groups.ts:204-221 | taking an internal key apart undoes writing it: user key, kind byte 1 for a value, sequence in seven bytes, least significant first |
| `GroupValues.CollectPairs` | extensions/anthropic/claude-desktop-groups.ts:203-224 | the collector keeps, entry after entry, the version with the larger sequence |
| `GroupValues.KeepAllIsNewest` | extensions/anthropic/claude-desktop-groups.ts:214-222 | for every key the kept version is one of those seen, with the largest sequence |
| `GroupValues.NewestIsOrderIndependent` | extensions/anthropic/claude-desktop-groups.ts:214-222 | with distinct sequences per key the outcome does not depend on the order of entries |
| `GroupValues.LargestIsKept` | extensions/anthropic/claude-desktop-groups.ts:214-222 | the version with the largest sequence of its key is the one kept |
| `GroupValues.DeletionMasks` | extensions/anthropic/claude-desktop-groups.ts:218-222 | a newest version that is a deletion or carries no marker masks every older value |
| `GroupValues.CollectTables` | extensions/anthropic/claude-desktop-groups.ts:203-224 | over all files: the newest version of every key, where a file that fails contributes what came before its error |
| `GroupValues.NewestWrittenIsCollected` | extensions/anthropic/claude-desktop-groups.ts:183-224 | from files that are well-formed tables of written entries exactly the user keys written are collected, each with the entry of the largest sequence written: its value if live, nothing if a deletion |
| `GroupValues.FailureKeepsWhatCameBefore` | extensions/anthropic/claude-desktop-groups.ts:203-209 | a block with a damaged entry or too short a key ends its file: what came before counts, nothing after it |
| `GroupValues.FileOrderDoesNotMatter` | extensions/anthropic/claude-desktop-groups.ts:203-224 | reading the same files in another order gives the same values |
| `AcpxProtocol.StepKeepsInv` | extensions/acpx/register.runtime.ts:42-183 | every action keeps the invariant of registry, fields, services and activations |
| `AcpxProtocol.RegisteredIsOwned` | extensions/acpx/register.runtime.ts:36-94 | in every interleaving, a runtime of this service in the registry is the owned one, for the running revision of a started service |
| `AcpxProtocol.NothingComesBack` | extensions/acpx/register.runtime.ts:63-75 | after the first segment of stop no late activation puts a runtime back before the next start |
| `AcpxProtocol.StopUnregisters` | extensions/acpx/register.runtime.ts:157-162 | the first segment of stop takes this service's runtime out of the registry and leaves any other |
| `AcpxProtocol.ForeignIsNeverRemoved` | extensions/acpx/register.runtime.ts:36-40 | nothing but the host's start and other writers replaces a foreign runtime |
| `AcpxProtocol.ActivationIsShared` | extensions/acpx/register.runtime.ts:50-57 | at most one activation is unsettled, it is the shared one, and further calls of its revision change nothing |
| `AcpxProtocol.ActivationSucceedsExactly` | extensions/acpx/register.runtime.ts:63-95 | in every run: the start of an activation succeeds, and its runtime is served, exactly if it published that runtime in place of its revision's proxy and since then there was no stop, foreign write or retraction |
| `AcpxProtocol.ServedUntilStop` | extensions/acpx/register.runtime.ts:47-52 | in every run: once a runtime is served it, its context and its revision stay until the host stops the service |
| `AcpxProtocol.OrdinaryStart` | extensions/acpx/register.runtime.ts:47-95 | the ordinary start is a run, and ends with its runtime served and registered |
| `AcpxProtocol.EndedRevisionBeginsNothing` | extensions/acpx/register.runtime.ts:47-49 | in every run, once a revision has ended no activation of it begins any more, whatever its proxies are asked |
| `AcpxProtocol.StaleFailureClearsNothing` | extensions/acpx/register.runtime.ts:99-105 | a failing activation of an older revision clears nothing of the running one |
| `AcpxProtocol.LiveServicesCounted` | extensions/acpx/register.runtime.ts:81-105 | the live services are the abandoned ones and, if one is recorded, one more |
| `AcpxProtocol.TwoLiveExactlyWhen` | extensions/acpx/register.runtime.ts:81-105 | a run has two services live at once if and only if in it a service is loaded after another was dropped: by the catch of the activation that created it while its revision runs, or by a stop that failed |
| `AcpxProtocol.AbandonedExactlyWhen` | extensions/acpx/register.runtime.ts:97-105 | a service is abandoned exactly when an activation that created it fails while its revision still runs, or when stopping it throws |
| `AcpxProtocol.TwoLiveServices` | extensions/acpx/register.runtime.ts:89-105 | a run in which two services are live at once |
| `AcpxProtocol.StopLeavesNothing` | extensions/acpx/register.runtime.ts:163-175 | when stop is done no activation is under way and all fields are clear; the service of the interrupted activation has been stopped, or its stop threw and it is abandoned |
| `AcpxProtocol.ReadyRuntimeIsStable` | extensions/acpx/register.runtime.ts:50-52 | a runtime that became ready is what every caller gets until stop |
| `AcpxService.BackendRegistry.UnregisterOwned` | extensions/acpx/register.runtime.ts:36-40 | refinement: the registry is cleared only if it holds the given runtime |
| `AcpxService.DeferredService.Start` | extensions/acpx/register.runtime.ts:141-149 | refinement: the new revision's proxy is owned and registered |
| `AcpxService.DeferredService.StartRealService` | extensions/acpx/register.runtime.ts:47-57 | refinement: the first segment of a proxied call: refused, served, joined, or beginning the one activation |
| `AcpxService.DeferredService.PublishBackend` | extensions/acpx/register.runtime.ts:63-75 | refinement: it replaces exactly if revision and context still run and the registry holds the proxy, and otherwise changes nothing |
| `AcpxService.DeferredService.FinishActivation` | extensions/acpx/register.runtime.ts:82-95 | refinement: it returns a runtime exactly if its revision and context still run, something was published and that is still registered |
| `AcpxService.DeferredService.CatchFailure` | extensions/acpx/register.runtime.ts:99-105 | refinement: the catch clause clears the shared fields only for its own revision |
| `AcpxService.DeferredService.ServiceCreated` | extensions/acpx/register.runtime.ts:81-82 | refinement: the created service is recorded and started |
| `AcpxService.DeferredService.RetractBackend` | extensions/acpx/register.runtime.ts:76-78 | refinement: retracting clears the registry only of that runtime |
| `AcpxService.DeferredService.StopRealService` | extensions/acpx/register.runtime.ts:165-167 | refinement: once the interrupted activation has settled, the recorded service is asked to stop |
| `AcpxService.DeferredService.Stop` | extensions/acpx/register.runtime.ts:152-165 | refinement: the first segment of stop, joined when a stop is under way |
| `AcpxService.DeferredService.FinishStop` | extensions/acpx/register.runtime.ts:166-180 | refinement: the final action of stop: every field is cleared, and the service is stopped unless its stop throws |
| `ConverseBlocks.AddDeltaKeepsInv` | extensions/amazon-bedrock/stream.runtime.ts:539-616 | every delta, whatever its index and kind, keeps: one start and the deltas so far per position, contents equal to what was routed there |
| `ConverseBlocks.StopKeepsInv` | extensions/amazon-bedrock/stream.runtime.ts:650-697 | a stop ends the log of the first open block of its index, encodes its redacted chunks, and forgets them |
| `ConverseBlocks.SweepCloses` | extensions/amazon-bedrock/stream.runtime.ts:360-371 | the closing sweep closes every open block, also when stream indexes were reused |
| `ConverseBlocks.CompletedStream` | extensions/amazon-bedrock/stream.runtime.ts:291-371 | for every item sequence each content position has exactly one start, then its deltas, then exactly one end; text, thinking, signatures, tool arguments and redacted bytes are the concatenation of what was routed there; no scratch index or partial JSON remains |
| `ConverseBlocks.NothingLeftBehind` | extensions/amazon-bedrock/stream.runtime.ts:163-163 | no redacted chunk is left over and no event lies outside the content positions |
| `ConverseLaws.StreamIsMade` | extensions/amazon-bedrock/stream.runtime.ts:516-697 | from the items alone: a completed stream has the positions its items open, each of its kind and with its tool's id and name; its events are of that kind, and it holds what the items fed it |
| `ConverseLaws.MakeOnce` | extensions/amazon-bedrock/stream.runtime.ts:516-697 | what the items open, feed and close is determined by the items |
| `ConverseStream.FailedStream` | extensions/amazon-bedrock/stream.runtime.ts:375-380 | after an error no scratch state remains, and every block shown still holds what had reached it; a redacted one holds its chunks, encoded, if its stop came, and otherwise the signature it had |
| `ConverseStream.StreamConsumer.HandleContentBlockStart` | extensions/amazon-bedrock/stream.runtime.ts:516-537 | a tool-use start pushes a block and its start event; other starts do nothing |
| `ConverseStream.StreamConsumer.HandleContentBlockDelta` | extensions/amazon-bedrock/stream.runtime.ts:539-616 | the delta handler does to blocks, events and chunks what the specification says |
| `ConverseStream.StreamConsumer.HandleReasoning` | extensions/amazon-bedrock/stream.runtime.ts:590-614 | thinking text, signature and redacted content, in that order |
| `ConverseStream.StreamConsumer.HandleContentBlockStop` | extensions/amazon-bedrock/stream.runtime.ts:650-697 | the stop handler does what the specification says |
| `ConverseStream.StreamConsumer.Consume` | extensions/amazon-bedrock/stream.runtime.ts:291-392 | the stream completes if and only if nothing throws, it was not aborted and its last message stop is no failure; then the state is the completed one, else everything handled so far, stripped of scratch state, or no content at all when a refusal buffer held it back |
| `Messages.SplitBetweenRuns` | extensions/amazon-bedrock/stream.runtime.ts:912-1072 | cut anywhere but inside a run of tool results, converting is concatenating the two conversions, with the first failure winning |
| `Messages.RunBecomesOneMessage` | extensions/amazon-bedrock/stream.runtime.ts:1041-1068 | each maximal run of tool results becomes exactly one user message with every result once and in order |
| `Messages.SingleStandsAlone` | extensions/amazon-bedrock/stream.runtime.ts:917-1040 | every other message becomes its own output message, or none, whatever surrounds it |
| `MessageLaws.PartIsSent` | extensions/amazon-bedrock/stream.runtime.ts:877-1034 | every part is sent as exactly the block its fields say, dropped, or fails, and conversely; with the cases of thinking, signatures, images and calls spelled out |
| `MessageLaws.ConversationIsSent` | extensions/amazon-bedrock/stream.runtime.ts:912-1072 | one message per user or assistant message of which something is left and per maximal run of tool results, in order; user role exactly for users and runs; contents are the blocks of the parts, a plain text its own, a result its call id, error flag and content |
| `MessageLaws.ConversationFails` | extensions/amazon-bedrock/stream.runtime.ts:912-1072 | it fails exactly if some part fails, as the first such part does |
| `Messages.NoEmptyMessage` | extensions/amazon-bedrock/stream.runtime.ts:935-951 | no output message is empty |
| `Messages.ConvertMessages` | extensions/amazon-bedrock/stream.runtime.ts:904-1097 | the loop that skips over collected runs, with its cache anchor, returns the pieces of the look-ahead-free conversion with the cache point specified, or the first failure |
| `Messages.CollectRun` | extensions/amazon-bedrock/stream.runtime.ts:1041-1062 | look-ahead from the first result of a run gives the one message the run becomes, and the index after it |
| `Messages.CachedPrefixIsStable` | extensions/amazon-bedrock/stream.runtime.ts:1074-1094 | at most one cache point; it closes a user message with no runtime context up to it; no later user message could have held it; and only with retention, a caching model and a user message last |
| `Messages.CachePointIsPlaced` | extensions/amazon-bedrock/stream.runtime.ts:1076-1094 | when those conditions hold and some user message is stable, a cache point is placed |
| `Messages.RuntimeContextIsNotCached` | extensions/amazon-bedrock/stream.runtime.ts:938-940 | a kept runtime-context carrier always comes after the cache point |
| `RecallProtocol.StepKeepsInv` | extensions/active-memory/recall-state.ts:84-131 | every action keeps the invariant of runs, recalls and callers |
| `RecallProtocol.OlderRecallsAreOver` | extensions/active-memory/recall-state.ts:88-97 | of two recalls of a run, both begun since it was last forgotten, the older and its cleanup have settled |
| `RecallJobs.WaitersShareOneReplacement` | extensions/active-memory/recall-state.ts:89-97 | for every sequence of events in the order promise jobs run, unless the run is forgotten: all callers that waited on one timed-out recall join one and the same replacement, whenever they came in and whatever happens between them |
| `RecallJobs.NextKeepsJobInv` | extensions/active-memory/recall-state.ts:84-124 | every event keeps: jobs in the queue can run and are there once, every caller whose recall is over is queued, and its job comes before its replacement can settle or announce a cleanup |
| `RecallJobs.HeadCanRun` | extensions/active-memory/recall-state.ts:92-124 | in every sequence of events the job at the head of the queue can run |
| `RecallJobs.JobRunIsRun` | extensions/active-memory/recall-state.ts:84-131 | what is reached in job order is reached by a run of the registry, so what holds of every state of a run holds here |
| `RecallJobs.ForgettingAllowsOverlap` | extensions/active-memory/recall-state.ts:127-131 | in job order: after forgetting a run two of its recalls can run at once |
| `RecallJobs.FulfilledCanBeWithheld` | extensions/active-memory/recall-state.ts:88-117 | in job order: a fulfilled recall is withheld from two later callers, which share its replacement |
| `RecallProtocol.WaitersShareExactly` | extensions/active-memory/recall-state.ts:89-97 | in whatever order segments run, a later waiter joins the replacement the first one joined if and only if that is still registered and has announced no cleanup |
| `RecallProtocol.LaterCallersGetTheResultExactly` | extensions/active-memory/recall-state.ts:98-117 | in every run without forgetting: a caller that looks its run up after a recall of it was fulfilled joins that recall, and is then delivered its result unchanged, if and only if no timeout cleanup was announced for it |
| `RecallProtocol.NobodyJoinsAfterCleanup` | extensions/active-memory/recall-state.ts:88-106 | in every run, once the timeout cleanup of a recall is announced nobody joins it any more |
| `RecallProtocol.RegisteredExactly` | extensions/active-memory/recall-state.ts:101-131 | over any stretch of a run: a recall without cleanup stays registered if and only if it is not rejected and its run is not forgotten meanwhile |
| `RecallProtocol.StaleCallbacksRemoveNothing` | extensions/active-memory/recall-state.ts:93-122 | only callbacks and resumed callers about the registered recall remove it, and only when it is over |
| `RecallRuns.RecallRegistry.LookUpRun` | extensions/active-memory/recall-state.ts:88-117 | refinement: the first segment: wait, join, or register a new recall |
| `RecallRuns.RecallRegistry.Resolve` | extensions/active-memory/recall-state.ts:84-100 | refinement: a caller comes in and looks its run up |
| `RecallRuns.RecallRegistry.OnTimeoutCleanup` | extensions/active-memory/recall-state.ts:104-106 | refinement: a recall announces its timeout cleanup |
| `RecallRuns.RecallRegistry.ForgetRun` | extensions/active-memory/recall-state.ts:127-131 | refinement: forgetting drops the registration of the run |
| `RecallRuns.RecallRegistry.ResumeCaller` | extensions/active-memory/recall-state.ts:92-97 | refinement: the resumed caller releases the old registration if it is still there, and looks up again |
| `RecallRuns.RecallRegistry.HandleRejection` | extensions/active-memory/recall-state.ts:118-124 | refinement: a rejection before cleanup frees the run only if the entry is still registered |
| `RecallRuns.RecallRegistry.HandleBothSettled` | extensions/active-memory/recall-state.ts:107-111 | refinement: the settled callback frees the run only if the entry is still registered |
| `TailFollow.Poll` | extensions/anthropic/session-upstream-activity.ts:105-172 | one poll: nothing without a newline in what was read; else the marker moves behind the last newline, with the number and the latest time of human turns among the complete lines |
| `TailFollow.PollReports` | extensions/anthropic/session-upstream-activity.ts:139-166 | from the bytes alone: the turns reported are the number of consumed lines whose text, without one final carriage return, is a human turn, and the time is the latest of theirs |
| `TailFollow.LinesCoverRange` | extensions/anthropic/session-upstream-activity.ts:137-142 | every byte of a consumed range lies in exactly one complete line |
| `TailFollow.PollsCountEachLineOnce` | extensions/anthropic/session-upstream-activity.ts:128-166 | over any series of polls of a growing file, any caps and short reads, the reported turns sum to the turns of the whole range consumed, and the marker only moves onto line ends |
| `TailFollow.FullReadAdvances` | extensions/anthropic/session-upstream-activity.ts:133-141 | a full read advances exactly when a newline lies within the cap |
| `TailFollow.MarkersIncrease` | extensions/anthropic/session-upstream-activity.ts:159-166 | advanced markers strictly increase, so no two advances share a deduplication id |
| `TailFollow.LinesAreLines` | extensions/anthropic/session-upstream-activity.ts:143-145 | the lines of a consumed range hold no newline and begin where the one before ended |
| `TailFollow.ConsumedLinesAreTheFiles` | extensions/anthropic/session-upstream-activity.ts:137-143 | from a marker at a line start, the consumed lines are lines of the whole file |
| `Injection.EscapeIsOneMap` | extensions/active-memory/prompt.ts:139-146 | the five sequential replacements are one per-character map, and no opening angle bracket remains |
| `Injection.StripInjectedActiveMemoryPrefixOnly` | extensions/active-memory/query.ts:234-263 | the index-jumping loop keeps what the specification keeps |
| `Injection.StripUndoesInjection` | extensions/active-memory/prompt.ts:292-309 | for every non-empty summary and every text, stripping the injected block, a newline and the text is stripping the text alone |
| `Injection.StripUndoesStackedInjections` | extensions/active-memory/query.ts:234-263 | the same for any number of stacked blocks |
| `Injection.OnlyWholeBlocksGo` | extensions/active-memory/query.ts:243-259 | without a whole block every non-blank line stays, whatever headers and tags occur |
| `Injection.FirstBlockGoes` | extensions/active-memory/query.ts:243-259 | the first whole block goes wherever it begins; the lines before it stay and what follows it is stripped in turn |
| `Injection.InjectedSaysSummary` | extensions/active-memory/prompt.ts:139-146 | what is injected is the header and, between the tags, the summary, escaped so that reading it as XML gives it back; nothing for an empty summary |
| `CliArgs.Normalized` | extensions/anthropic/cli-shared.ts:489-508 | the result has a setting-sources flag and only the value user for it, no legacy flag, a value for every permission mode, and the wanted mode |
| `CliArgs.NormalizingTwice` | extensions/anthropic/cli-shared.ts:489-508 | normalising twice is normalising once if and only if the list was present or no mode is wanted |
| `CliArgs.EverythingElseStays` | extensions/anthropic/cli-shared.ts:159-248 | the permission modes that were set and every other argument are in the result, in order, with the wanted mode behind them exactly if none was set; each pass takes out only its own flags |
| `CliArgs.NormalizeSettingSourcesArgs` | extensions/anthropic/cli-shared.ts:212-248 | the setting-sources pass as specified |
| `CliArgs.NormalizePermissionArgs` | extensions/anthropic/cli-shared.ts:159-209 | the permission pass as specified, for a call that overrides the modes configured and for one that does not |
| `CliArgs.OnlyWantedModeStays` | extensions/anthropic/cli-shared.ts:184-207 | for an overriding call the wanted mode is the only permission flag left, and everything else stays in order |
| `CliArgs.NormalizeBackendArgs` | extensions/anthropic/cli-shared.ts:489-508 | both passes over a configured list, which may be missing |
| `ConfigMerge.TargetStays` | extensions/amazon-bedrock/config-compat.ts:31-45 | whatever the target says at a path stays: leaves unchanged, records records |
| `ConfigMerge.LegacyFills` | extensions/amazon-bedrock/config-compat.ts:31-45 | what the target lacks at a path comes from the legacy record exactly along open paths, and nothing else appears |
| `ConfigMerge.MergeTwice` | extensions/amazon-bedrock/config-compat.ts:31-45 | merging again changes nothing |
| `ConfigMerge.MigrateTwice` | extensions/amazon-bedrock/config-compat.ts:67-112 | migrating twice is migrating once |
| `ConfigMerge.SettingsMove` | extensions/amazon-bedrock/config-compat.ts:87-100 | the discovery settings are the merge of what was there with the legacy ones, or the legacy ones as they are |
| `ConfigMerge.NothingElseChanges` | extensions/amazon-bedrock/config-compat.ts:76-101 | every path off the two settings paths reads as before |
| `ConfigMerge.ModelsKeepTheRest` | extensions/amazon-bedrock/config-compat.ts:59-64 | the record the legacy settings were in keeps its other settings, and goes when it has none |
| `ConfigMerge.NothingToMove` | extensions/amazon-bedrock/config-compat.ts:71-84 | without legacy settings nothing changes; empty ones are taken out and everything outside models stays |
| `ConfigMerge.MigrateLegacyConfig` | extensions/amazon-bedrock/config-compat.ts:67-112 | the migration with its records made on the way, as specified |
| `ConfigStore.RecordHeap.MergeMissing` | extensions/amazon-bedrock/config-compat.ts:31-45 | the recursive merge over mutable records, shared or cyclic: the store it leaves is the one the store-to-store merge gives, for every order of keys |
| `ConfigStore.MergeStaysInTarget` | extensions/amazon-bedrock/config-compat.ts:31-45 | when no two open paths (along keys that are not blocked) from the target lead to one record, the merge comes to an end, whatever the source is, and changes only records on open paths of the target |
| `ConfigSharing.InputStaysExactly` | extensions/amazon-bedrock/config-compat.ts:76-100 | every legacy record, merged in whatever key order, leaves every record of the input as it was if and only if no two open paths from the target lead to one record |
| `ConfigSharing.UnsharedTargetIsSafe` | extensions/amazon-bedrock/config-compat.ts:76-100 | for such a target the merge also comes to an end |
| `ConfigSharing.SharedTargetIsUnsafe` | extensions/amazon-bedrock/config-compat.ts:31-45 | for every target with two open paths to one record, some legacy record is merged by writing into the input |
| `ConfigSharing.SharedRecordIsWritten` | extensions/amazon-bedrock/config-compat.ts:31-45 | one such input: merging {a: {x: {}}, b: {x: {q}}} into a target with one record under a and b, a first, gives the input's own empty record the field q |
| `ConfigGraph.MergeIsMergeOfValues` | extensions/amazon-bedrock/config-compat.ts:31-45 | into a target whose records form a tree of their own the outcome is the merge of the values, in every key order; legacy values go in by reference and no other record is written |

## Left out

- Opening, listing and stat-ing files, the network, timers, SDK clients and node invocation: their results are inputs or actions. I/O failures other than a missing file or root are not modelled, nor a transcript that shrinks under the reader (a zero-byte read there raises an error).
- `mapConcurrent`: it only resolves file metadata; every decision is taken in directory order, which is what `Discovery` models. The listing loop with its file limit is a parameter.
- Discovery assumes, as the code does, that modification time, size and inode determine a file's content, and that reads inside the scan are full.
- Cursor strings: cursors are byte offsets. Session lookup, parameter validation and the remote-node route of transcripts and history.
- Varints above 2^53: the code adds in floating point; every such value is refused afterwards in the code and in the model.
- The regular-expression record scan over collected group values and its tie-breaking, which the code calls best-effort.
- ACPX: the host is assumed not to issue a start or stop while a start waits, nor a second start without a stop; the host's start overwrites the registry whatever is in it. The error texts of a failed activation are one outcome.
- `AcpxService.DeferredService.FailActivation`: importing the module and starting the service fail at different points but have the same effect on the state.
- Converse: the `start`, `done` and `error` events, usage metadata, the order in which a refusal buffer forwards the events it held back, and the aliasing of the partial message carried by each event. A refusal counts as a failed message stop. A delta or stop without a block index, which would match a block already closed, is outside the model: indexes are numbers.
- `ConverseBlocks.CompletedStream`: the thinking text of a redacted block is a placeholder with later deltas appended; only its signature is tied to what was received.
- Messages: the transformation before conversion, tool and system-prompt conversion, and model predicates, which are two flags.
- Recall: cleanup is announced at most once and before the recall settles, and neither in the job that begins the recall, as is so for the only caller, `maybeResolveActiveRecall`; log lines, the recall result cache and the circuit breaker.
- Tail follower: the checks of the probe's shape, the remote variant that compares item ids, and the line numbers passed to the classifier, which is a function of the line.
- Injection: joining the kept lines and collapsing white space is a parameter; recall prompts, summary truncation, query building and the other strippers.
- CLI: effort arguments and the restricted and side-question argument lists.
- Config: the change messages; arrays and `null` are leaves; a field set to `undefined` counts as missing.
- `ConfigMerge.MigrateLegacyConfig`: the migration around the merge is on values only; that `structuredClone` keeps sharing inside the clone, and paths of the clone that lead into the discovery record from elsewhere, are not modelled. `ConfigSharing` is about the clone's discovery record with any sharing inside it.
- `ConfigStore.RecordHeap.MergeMissing`: recursion is bounded by a parameter, since a target that shares records can become cyclic; `ConfigStore.MergeStaysInTarget` gives the bound that suffices otherwise.
- `ConfigGraph.MergeIsMergeOfValues`: object graphs are acyclic and numbered children first, the input before its clone, because a cyclic graph stands for no value.
- `LevelDb.TableIsRead`: block checksums are not checked, as in the code, and the restart array is read only for its length.
