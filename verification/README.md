# Verified models of the bound agent's algorithmic cores

A Dafny model of the parts of the repository where a loop or a state machine has to agree with
a simple statement about it. Storage, clocks, the network and the model providers appear as
parameters; what the code computes from them is modelled branch by branch and proved.

| modules | what they model |
|---|---|
| `Annotation`, `DelegationSegments`, `DelegationGate`, `DelegationCounterexamples` | the codec that ships a context as one range pointer over confirmed-synced rows plus inline messages, and rebuilds it on another replica |
| `Lines`, `EditScript`, `UnifiedDiff`, `DiffRoundTrip`, `Decimal` | the unified diff of two texts, a reader and applier for its format |
| `Base64`, `Utf8`, `RequestSplit`, `RequestAssembler`, `RequestDelivery`, `RequestConflicts` | splitting a serialized inference request into bounded parts and reassembling it |
| `CacheMarkers`, `CacheMarkerRuns`, `CacheMarkerHistory`, `AgentLoopFrames` | the prompt-cache markers spliced into and out of the message list, and the loop that drives them |
| `ToolPairs`, `DeltaRows` | the orphaned-tool-call detector and the warm-path row converter |
| `StreamChunks`, `ToolCallDrafts` | stream aggregation and the superseded-draft filter |
| `AsyncBridge` | the push-to-pull bridge between an observable and an async iterator |
| `Keys`, `Fingerprint`, `FingerprintOrder` | canonical JSON and the tool fingerprint's hash input |
| `HistoryBoundary`, `ContextBudget` | where truncated history starts, and the token budgets |
| `AffectedPackages` | the test selector's dependency graph and closure |
| `WarmPoke`, `WarmPokeRuns`, `PokeCap`, `PokeCapFailures` | which threads get a cache-warming poke, what that achieves over a run, and what it costs |
| `Results`, `Messages` | shared datatypes |

Code that mutates is modelled imperatively (classes for the assembler, the message list, the
agent loop and the bridge; methods with loops elsewhere) and proved equal to a specification
function; what the source promises is then proved about that function, usually over all runs.

## Where the code and its promises part

Each of these is kept as the code has it. Where it is a difference in behaviour, the exact condition
is proved and a failing input is given.

- The segment codec is documented to round-trip every producer list
  (`packages/agent/src/delegation-segments.ts:17`). On a host with the covered rows in front it does so
  exactly when the covered run does not end on an injected "Model switched" message, no covered row has
  a role that annotation skips, and no covered tool_result takes its id from a tool_call outside the
  range (`RoundTripExact`). Rows created at one instant are ordered by the local rowid, which is not
  replicated: a host that holds them in another order swaps the messages, though it never raises
  R-UD10 (`NoCandidateHostLacksARow`), and that shows exactly when the bytes differ (`HostBytesDecide`).
  `DelegationCounterexamples` has an input for each failure.
- A request's text survives splitting and reassembly exactly when it does not begin with a byte
  order mark and has no unpaired surrogate; the encoder replaces the latter and the decoder drops
  the former. As bytes the round trip is exact for every payload.
- `canonicalize` is meant to preserve a schema up to key order. It drops properties named
  `__proto__`, because assigning that key reaches the prototype setter; it is faithful exactly when
  there are none. The fingerprint is meant to ignore the order of the tools. For schemas whose texts
  do not begin one another, as those of objects do not, no reordering changes what is hashed exactly
  when no name is given two different schemas.
- The bridge discards queued values when an error arrives between the wake-up for a value and the
  consumer's resumption, and only then.
- A cache marker is meant to be placed whenever there is anything to anchor on
  (`packages/agent/src/cache-marker.ts:309-322`). `PlacedIff` says when it is: a user message followed by
  developer text alone gets none, because the fallback points at index zero and the recovery rule is
  not reached. The stable anchor is meant not to move within a user turn; it stays put exactly when the
  latest user message is not first and either something that reaches the wire precedes it or
  something follows it.
- The soft history budget stays within the hard ceiling for every fixed cost exactly when the
  clamped target, inflated, fits the effective budget; an output reserve below the safety margin can
  break that. The ceiling scales the recent tier alone: when the fixed costs inflate as well, a tier at
  the ceiling still fits exactly when rounding absorbs their inflation (`TierAtCeilingFitsIff`).
- A scan period up to the TTL puts exactly one scan into `[turn + TTL - S, turn + TTL)`, but that does
  not suffice for the promise that a poked thread never goes cold: where a backend is poked at all,
  that holds exactly for periods strictly below the TTL, as the option's documentation demands
  (`NeverLapsesIff`).
- The cap promises at most so many pokes since a thread's last real activity
  (`packages/agent/src/cache-warm-poke.ts:22-24`). It is enforced by counting rows, and rows change.
  Soft-deleting a task (`packages/web/src/server/routes/connectors.ts:50`), clearing its `no_history`
  (`packages/web/src/server/routes/tasks.ts:157`) or tombstoning a message
  (`packages/cli/src/commands/restore.ts:137`) takes activity back and merges two periods; redaction
  (`packages/agent/src/redaction.ts:43`) hides a poke from the count. `StepCappedIff` says for every
  event, on the state before it, when the cap survives, and `RunCappedIff` for every run;
  `PokeCapFailures` has a run from an empty database for each of these failures. Without such
  interference the cap always holds (`TameRunIsCapped`).
- The comments on bucket-aligned placement (`packages/agent/src/cache-marker.ts:235-244`) describe
  an earlier algorithm; the selector's header (`scripts/test-affected.ts:11-12`) counts this script
  and the hook as global files, the pattern list does not. The model follows the code.

## Model

| member | source | states |
|---|---|---|
| Annotation.EmittedRowDerived | packages/agent/src/annotation/annotate.ts:217-320 | annotation yields exactly one row-derived message per row of a wire role, injected ones apart |
| Annotation.FirstIsRowDerived | packages/agent/src/annotation/annotate.ts:225-236 | a model-switch message is never first |
| Annotation.EmittedAgrees | packages/agent/src/annotation/annotate.ts:307-313 | two sets of known tool ids give the same annotation iff every row resolves to the same tool_use id under both |
| Annotation.RowBecomes | packages/agent/src/annotation/annotate.ts:217-320 | what each row of a wire role becomes: its message, with the tool id taken from a known name, else from the latest call, else made from the row id; before it, for the first three model changes only, the note naming the old and the new model |
| Annotation.RowSkipped | packages/agent/src/annotation/annotate.ts:217-220 | a row of any other role becomes nothing |
| Annotation.SwitchesCapped | packages/agent/src/annotation/annotate.ts:224-235 | as many switches are announced as the model changed, but no more than three |
| Annotation.KnownIdsExact | packages/agent/src/annotation/annotate.ts:195-203 | the known ids are those of the blocks of all tool_call rows of the window |
| DelegationSegments.CoveredRun | packages/agent/src/delegation-segments.ts:106-125 | the walk covers messages with the bytes of the annotation and counts the rows behind them; it stops only at other bytes, or at a row-derived message whose row is missing or refused |
| DelegationSegments.SegmentAssembledMessages | packages/agent/src/delegation-segments.ts:89-147 | the producer emits one range over the covered rows and the rest inline, or everything inline |
| DelegationSegments.ResolveSegments | packages/agent/src/delegation-segments.ts:155-181 | the consumer computes the meaning of a segment list on its replica, stopping at the first R-UD10 error |
| DelegationSegments.RunIsLongest | packages/agent/src/delegation-segments.ts:109-125 | the run grown from any position covers exactly the messages that join, up to the first that does not |
| DelegationSegments.RunIsMaximal | packages/agent/src/delegation-segments.ts:109-125 | only different bytes, or a row-derived message whose row is missing or refused by the gate, end the covered run |
| DelegationSegments.CountIsConfirmedPrefix | packages/agent/src/delegation-segments.ts:84-88 | when the producer ships the whole annotated thread first, the range counts exactly the leading rows that the gate accepts |
| DelegationSegments.FullySyncedIsOneRange | packages/agent/src/delegation-segments.ts:84-147 | a fully confirmed thread travels as one range over all its rows, whatever else follows inline |
| DelegationSegments.BookkeepingIsDropped | packages/agent/src/delegation-segments.ts:54-58 | wherever it stands a client bookkeeping result is left out, and any other row kept in place |
| DelegationSegments.LoadsNewest | packages/agent/src/delegation-segments.ts:54-58 | of more than 100000 rows the newest 100000 are loaded |
| DelegationSegments.RangeErrorIff | packages/agent/src/delegation-segments.ts:167-178 | a range fails iff the replica has fewer rows up to the anchor than it counts, and the error names both numbers |
| DelegationSegments.EveryCountedRowIsCoverable | packages/agent/src/delegation-segments.ts:118-123 | the gate accepted every row the range counts |
| DelegationSegments.RangeBytesExact | packages/agent/src/delegation-segments.ts:132-142 | annotating only the counted rows gives the covered messages iff the range is faithful |
| DelegationSegments.RoundTripExact | packages/agent/src/delegation-segments.ts:17-18 | on any replica that shares the covered rows as its leading rows, resolving never raises R-UD10, and returns the producer's list iff the range is faithful |
| DelegationSegments.RoundTripOnOrderlyThreads | packages/agent/src/delegation-segments.ts:100-125 | without skipped roles or results before their calls, the round trip holds iff the run does not end on an injected message |
| DelegationGate.CoveredRowsConfirmedEverywhere | packages/agent/src/bound-agent-loop.ts:650-673 | every counted row has its latest change at or below the confirmed watermark of every candidate host |
| DelegationGate.GateExact | packages/agent/src/bound-agent-loop.ts:650-673 | the gate accepts a row iff its latest change is known and at or below every watermark, or at zero without any |
| DelegationGate.NoHostCoversNothing | packages/agent/src/bound-agent-loop.ts:653-656 | with no candidate host nothing is covered |
| DelegationGate.NoCandidateHostLacksARow | packages/agent/src/delegation-segments.ts:150-152 | a candidate host that holds all rows up to its own watermark never raises R-UD10, whatever else it holds and in whatever order |
| DelegationGate.EveryCandidateHostResolves | packages/agent/src/bound-agent-loop.ts:645-673 | a candidate host that holds the counted rows in the same order, ties included, its other rows sorting later, resolves to the producer's bytes iff the range is faithful |
| DelegationGate.HostBytesDecide | packages/agent/src/delegation-segments.ts:167-178 | in whatever order a candidate host holds its rows, it resolves to the producer's list iff nothing is covered or its first rows annotate to the covered bytes |
| DelegationCounterexamples.TrailingSwitchIsLost | packages/agent/src/delegation-segments.ts:118-124 | a switch message before an unsynced row joins the run and is lost |
| DelegationCounterexamples.SkippedRowShiftsTheRange | packages/agent/src/delegation-segments.ts:118-123 | a row of a skipped role shifts the counted rows, and a message is lost |
| DelegationCounterexamples.LaterCallChangesTheBytes | packages/agent/src/annotation/annotate.ts:307-313 | a result whose call lies outside the range gets a synthetic id |
| DelegationCounterexamples.TiedRowsMaySwap | packages/core/src/repositories/messages.ts:484-484 | two rows created at one instant and stored in another order on the host come back swapped |
| EditScript.FillTable | packages/agent/src/built-in-tools.ts:121-133 | the table holds, for every pair of suffixes, the length of their longest common subsequence |
| EditScript.LcsIsOptimum | packages/agent/src/built-in-tools.ts:121-133 | the corner is attained by a common subsequence and bounds all of them |
| EditScript.BuildScript | packages/agent/src/built-in-tools.ts:135-149 | the greedy walk over the table gives the specified script |
| EditScript.WalkIsScript | packages/agent/src/built-in-tools.ts:135-149 | its kept and deleted lines are the old text, its kept and added lines the new one, and it keeps as many as the table's corner says |
| EditScript.WalkIsMinimal | packages/agent/src/built-in-tools.ts:135-149 | no script between the two texts has fewer deletions and additions |
| EditScript.StepIsGreedy | packages/agent/src/built-in-tools.ts:135-149 | where lines differ the walk adds iff that keeps the longest common subsequence within reach, also on a tie, and deletes otherwise |
| UnifiedDiff.GroupHunks | packages/agent/src/built-in-tools.ts:152-206 | the grouping loop builds one hunk for each group of changes, laid out as the next row says |
| UnifiedDiff.HunkLayout | packages/agent/src/built-in-tools.ts:153-177 | groups lie in order, more than six kept lines apart, and cover each changed line exactly once; inside, kept runs are at most six long; each hunk is its group with three kept lines before and after it, or as many as there are |
| DiffRoundTrip.PrintUnifiedDiff | packages/agent/src/built-in-tools.ts:106-209 | the text is the printed hunks of the minimal script; read back and applied by its numbers it turns the old text into the new one |
| DiffRoundTrip.HunksRoundTrip | packages/agent/src/built-in-tools.ts:184-204 | headers and bodies are read back as printed |
| DiffRoundTrip.HunksApply | packages/agent/src/built-in-tools.ts:178-205 | the hunks apply at exactly the lines their start and count numbers name |
| DiffRoundTrip.DiffAppliesTo | packages/agent/src/built-in-tools.ts:106-209 | for every file name and pair of texts, diff then patch turns the old text into the new |
| DiffRoundTrip.DiffApplies | packages/agent/src/built-in-tools.ts:110-112 | so does a reader that goes line by line without knowing the name, if the name is one line |
| DiffRoundTrip.CountsArePositive | packages/agent/src/built-in-tools.ts:186-204 | no hunk has an empty old or new side |
| DiffRoundTrip.ReplacedLineDiff | packages/agent/src/built-in-tools.ts:106-209 | for any name and lines, the diff of one replaced line before another, letter for letter |
| Base64.DecodeEncode | packages/agent/src/inference-request-parts.ts:16-22 | base64 (section 4 of RFC 4648) decodes what it encoded |
| Base64.EncodeLength | packages/agent/src/inference-request-parts.ts:16-18 | the encoding of n bytes has four characters per started group of three |
| Base64.Rfc4648Vectors | packages/agent/src/inference-request-parts.ts:16-18 | the encodings given in section 10 of RFC 4648 |
| Utf8.TextRoundTrip | packages/agent/src/inference-request-parts.ts:1-2 | encoded text decodes to itself with surrogates repaired and a leading mark dropped, so to itself iff it has neither |
| Utf8.Rfc3629Examples | packages/agent/src/inference-request-parts.ts:1-1 | encodings of one to four bytes, of section 7 of RFC 3629, and of an unpaired surrogate |
| RequestSplit.PartSize | packages/agent/src/inference-request-parts.ts:12-31 | the exact serialized size of a part: the envelope, two decimal counts and the base64 text |
| RequestSplit.JsonRoundTrip | packages/agent/src/inference-request-parts.ts:12-14 | a JSON string literal read by section 7 of RFC 8259 is the string written |
| RequestSplit.ByteLengthExact | packages/agent/src/inference-request-parts.ts:12-14 | the measured size of a text is that of its encoding |
| RequestSplit.EnvelopeBytes | packages/agent/src/inference-request-parts.ts:46-48 | the empty envelope is the frame, five bytes, the request id and the digits of its numbers |
| RequestSplit.JsonFrameBytes | packages/agent/src/inference-request-parts.ts:30-30 | the frame is ASCII and takes 52 bytes |
| RequestSplit.PartFits | packages/agent/src/inference-request-parts.ts:43-61 | no part exceeds the limit once the capacity check has passed |
| RequestSplit.CountAtMostUpper | packages/agent/src/inference-request-parts.ts:45-54 | the part count is between one and the assumed upper count |
| RequestSplit.SlicesPartition | packages/agent/src/inference-request-parts.ts:54-58 | the slices, joined in order, are the payload |
| RequestSplit.SplitInferenceRequest | packages/agent/src/inference-request-parts.ts:34-65 | a limit is refused iff it is not positive or takes not even one byte beside the largest envelope; otherwise the parts number themselves, fit, are as full as the limit allows but for the last, which is not empty, are a single one iff the payload fits one, and carry the payload |
| RequestSplit.TooSmallIff | packages/agent/src/inference-request-parts.ts:45-53 | the limit is too small iff any three bytes overflow it in the largest envelope |
| RequestSplit.PartsAreRight | packages/agent/src/inference-request-parts.ts:49-64 | the slices of the computed capacity are as large as fits in the largest envelope, and no part is empty unless the payload is |
| RequestSplit.CutPart | packages/agent/src/inference-request-parts.ts:57-62 | the part-too-large error is unreachable |
| RequestAssembler.InferenceRequestPartAssembler.Add | packages/agent/src/inference-request-parts.ts:77-119 | one delivery takes the assembly map and answers as specified, including the three errors |
| RequestAssembler.Join | packages/agent/src/inference-request-parts.ts:102-116 | the chunks are joined in index order |
| RequestAssembler.AllPresent | packages/agent/src/inference-request-parts.ts:101-106 | as many parts as the count means every index is present, so the missing-part exit is never taken |
| RequestDelivery.AnswersAreLocal | packages/agent/src/inference-request-parts.ts:89-93 | the answer to a delivery depends only on its own request's deliveries |
| RequestDelivery.AssemblyAfter | packages/agent/src/inference-request-parts.ts:89-117 | after any run an assembly holds exactly the parts seen, and is completed iff that is all |
| RequestDelivery.AnswerToPart | packages/agent/src/inference-request-parts.ts:99-118 | a part is answered with the text iff it is the last one missing |
| RequestDelivery.ExactlyOnce | packages/agent/src/inference-request-parts.ts:77-119 | over any run with any order, duplicates and foreign parts, a whole request was answered once and an incomplete one never |
| RequestConflicts.AssemblyIs | packages/agent/src/inference-request-parts.ts:89-117 | over any run whatever, the first valid delivery of an id fixes the count, the first one at each index its data, and the assembly is completed iff every index is taken |
| RequestConflicts.FirstCountExact | packages/agent/src/inference-request-parts.ts:89-94 | the count is that of a delivery before which no other of the id was valid |
| RequestConflicts.FirstDataExact | packages/agent/src/inference-request-parts.ts:95-100 | the data of an index are those of a delivery before which no other valid one took it |
| RequestConflicts.AnsweredAtMostOnce | packages/agent/src/inference-request-parts.ts:99-118 | over any run whatever an id is answered with a text once or never, by whether its assembly was completed with a text |
| RequestConflicts.ExactlyOnceIff | packages/agent/src/inference-request-parts.ts:77-119 | among arbitrary deliveries the whole request is assembled and answered once iff its own parts came first |
| RequestConflicts.AnswerExact | packages/agent/src/inference-request-parts.ts:77-119 | after any run, which of the four errors, nothing, or which text answers a delivery, by the first count and data that came under its id |
| RequestDelivery.SplitGivesParts | packages/agent/src/inference-request-parts.ts:54-64 | what the splitter returns are the parts of one request, carrying the payload |
| RequestDelivery.RequestRoundTrip | packages/agent/src/inference-request-parts.ts:34-119 | the completing delivery returns the payload iff it has no leading mark and no unpaired surrogate |
| RequestDelivery.ByteOrderMarkIsLost | packages/agent/src/inference-request-parts.ts:2-2 | a lone byte order mark comes back as the empty text |
| CacheMarkers.ComputeCacheMarkerIndex | packages/agent/src/cache-marker.ts:94-112 | the loop finds the position before the trailing developer run, or before the user message it merges into |
| CacheMarkers.MarkerIndexExact | packages/agent/src/cache-marker.ts:94-112 | by the last message that is not developer text: before it when it ends the list or is a user message, else right after it |
| CacheMarkers.ComputeStableCacheMarkerPlacement | packages/agent/src/cache-marker.ts:249-428 | the loops compute the anchor and the token position that the rows below describe |
| CacheMarkers.StableInRange | packages/agent/src/cache-marker.ts:329-427 | a placed anchor lies in 1..length-1, a message that reaches the wire precedes it, and its position is the token sum before it |
| CacheMarkers.TokensAddUp | packages/agent/src/cache-marker.ts:346-358 | token sums and counts of a list cut in two add up |
| CacheMarkers.TokensOfOne | packages/agent/src/cache-marker.ts:351-356 | a marker or developer text weighs nothing, any other message its estimate |
| CacheMarkerHistory.PlacedIff | packages/agent/src/cache-marker.ts:282-417 | for every list, a stable marker is placed iff the list can be anchored, and at which index, case by case on the latest user message |
| CacheMarkerHistory.UserThenDeveloperGetsNone | packages/agent/src/cache-marker.ts:322-339 | a user message followed by developer text alone gets no marker |
| CacheMarkers.MessageList.MaybePlaceCacheMarker | packages/agent/src/cache-marker.ts:125-145 | splices one marker at the computed index or leaves the list alone, with the reason |
| CacheMarkers.MessageList.PlaceStableCacheMarker | packages/agent/src/cache-marker.ts:435-445 | splices the stable marker in place |
| CacheMarkers.MessageList.RefreshInnerLoopRollingMarker | packages/agent/src/cache-marker.ts:626-657 | keeps the fixed marker and the previous tip, evicts older ones, places a new tip; evicts all but the fixed one without caching; returns where the tip went or why none was placed |
| CacheMarkers.MessageList.Evict | packages/agent/src/cache-marker.ts:643-655 | splicing out from high to low removes exactly the chosen markers |
| CacheMarkerRuns.StepKeepsInv | packages/agent/src/agent-loop.ts:354-394 | every transition keeps the fixed index on a marker with all others after it, and at most two rolling ones |
| CacheMarkerRuns.RunKeepsInv | packages/agent/src/cache-marker.ts:615-620 | over every run of cold, warm, tool-round and refresh steps the invariant holds, so with the system breakpoint there are at most four |
| CacheMarkerHistory.RunForgets | packages/agent/src/agent-loop.ts:354-394 | erasing the markers turns any run into the run of the loop without caching |
| CacheMarkerHistory.InnerTurnAdvancesTip | packages/agent/src/cache-marker.ts:594-613 | after a tool round and a refresh the old tip is still a breakpoint at its history position, and the new tip lies strictly after it |
| CacheMarkerHistory.TurnAdvances | packages/agent/src/cache-marker.ts:594-620 | in every state that keeps the invariant, that after a cold frame included, an inner turn puts the newest tip before its last result, past the old tip, which stays a breakpoint |
| CacheMarkerHistory.TipsAdvance | packages/agent/src/cache-marker.ts:594-620 | over any inner turns after any run the newest tip moves strictly forward |
| CacheMarkerHistory.StableAnchorExact | packages/agent/src/cache-marker.ts:265-277 | on every list, the fixed marker and its position survive every append of non-user messages iff the anchor is settled |
| CacheMarkerHistory.AnchorAppears | packages/agent/src/cache-marker.ts:390-417 | in the unsettled case there is no marker until something follows the user message, then it sits after it |
| CacheMarkerHistory.AnchorAtStartDrifts | packages/agent/src/cache-marker.ts:309-327 | with the only user message first, appending anything but developer text moves the marker past the old list, developer tail or not |
| AgentLoopFrames.AgentLoop.PrepareFrameCold | packages/agent/src/agent-loop.ts:570-601 | the cold path is the cold step of the marker machine |
| AgentLoopFrames.AgentLoop.PrepareFrameWarm | packages/agent/src/agent-loop.ts:346-430 | the warm path bails for the specified reason and forgets the turn, or is the warm step and sends a well-paired frame |
| AgentLoopFrames.AgentLoop.PersistToolMessages | packages/agent/src/bound-agent-loop.ts:1470-1530 | a tool call and its results are appended to the frame |
| AgentLoopFrames.AgentLoop.PrepareTurn | packages/agent/src/agent-loop.ts:656-687 | an inner turn forgets on a model change, refreshes the tail, then the markers |
| AgentLoopFrames.AgentLoop.RefreshVolatileTail | packages/agent/src/agent-loop.ts:140-191 | the last developer message, and nothing else, is replaced in place |
| CacheMarkerRuns.LastDeveloperReplaced | packages/agent/src/agent-loop.ts:178-190 | a developer message at the end of the list gets the new text |
| CacheMarkerRuns.OthersStay | packages/agent/src/agent-loop.ts:178-190 | messages of other roles behind the last developer message stay as they are |
| AgentLoopFrames.MarkersKeepPairing | packages/agent/src/agent-loop-utils.ts:747-752 | placing a marker and pushing the tail does not change which calls are answered |
| ToolPairs.HasOrphanedToolCall | packages/agent/src/agent-loop-utils.ts:696-763 | the one-pass scan returns true iff the list is not well paired |
| ToolPairs.ScanExact | packages/agent/src/agent-loop-utils.ts:689-694 | the scan's verdict equals the window-by-window definition of answered calls |
| ToolPairs.InvisibleDoNotMatter | packages/agent/src/agent-loop-utils.ts:747-752 | inserting or deleting cache and developer messages never changes the verdict |
| ToolPairs.TurnClosesCall | packages/agent/src/agent-loop-utils.ts:689-694 | a call directly followed by a turn or another call is orphaned, whatever surrounds it |
| DeltaRows.ConvertDeltaMessages | packages/agent/src/agent-loop-utils.ts:647-673 | exactly the surviving rows become messages, in order |
| DeltaRows.RunsCarryOver | packages/agent/src/agent-loop-utils.ts:594-603 | converted results occur only in runs that start right after a tool_call |
| DeltaRows.PendingCallBails | packages/agent/src/agent-loop-utils.ts:679-687 | a call pending at the turn boundary makes every merge orphaned, whatever rows arrive |
| DeltaRows.MergedIff | packages/agent/src/agent-loop-utils.ts:679-763 | a merge is well paired iff the remembered messages and the converted ones each are |
| DeltaRows.AnsweredDeltaPairs | packages/agent/src/agent-loop-utils.ts:689-694 | a delta is well paired when its calls are answered and no result comes after those of its call are all in |
| DeltaRows.WhichSurvive | packages/agent/src/agent-loop-utils.ts:582-603 | purge, system and bookkeeping rows never become messages, other rows that are no results always do, a result right after a call does and one after any turn does not |
| DeltaRows.SurvivorBecomes | packages/agent/src/agent-loop-utils.ts:605-636 | role, text, tool_use id, model and host of the message a surviving row becomes, an alert as marked developer text |
| DeltaRows.WarmMatchesCold | packages/agent/src/agent-loop-utils.ts:605-636 | the warm path and annotation turn a row into the same message iff its text is rendered as stored, its host known and its tool name the id annotation gives it |
| StreamChunks.ParseStreamChunks | packages/agent/src/agent-loop-utils.ts:450-542 | each field of the response, and each call's name and arguments since its id's last start |
| StreamChunks.TextConcat | packages/agent/src/agent-loop-utils.ts:465-469 | text and thinking are collected in the order streamed |
| StreamChunks.TextOfOne | packages/agent/src/agent-loop-utils.ts:465-469 | a text chunk adds to the text, a thinking chunk to the thinking, no other to either |
| StreamChunks.SignatureExact | packages/agent/src/agent-loop-utils.ts:468-471 | the signature is the last one streamed that is not empty |
| StreamChunks.UsageExact | packages/agent/src/agent-loop-utils.ts:510-516 | the usage is that of the last done chunk, or zero |
| StreamChunks.ArgsStep | packages/agent/src/agent-loop-utils.ts:472-480 | a start clears an id's arguments and names it, a fragment appends to them, no other chunk changes them |
| StreamChunks.CallsSnoc | packages/agent/src/agent-loop-utils.ts:481-509 | only the end of a call adds one |
| StreamChunks.CallExact | packages/agent/src/agent-loop-utils.ts:481-508 | a call carries its id, name and arguments, an empty object for none, and is truncated iff they do not parse |
| StreamChunks.StreamedCall | packages/agent/src/agent-loop-utils.ts:472-509 | a call streamed from start to end is added with its name and its fragments joined in order |
| StreamChunks.OwnSame | packages/agent/src/agent-loop-utils.ts:472-487 | an id's arguments and name are the same with all other ids' chunks removed |
| StreamChunks.OtherIdsDoNotMatter | packages/agent/src/agent-loop-utils.ts:481-509 | the calls parsed for an id depend on that id's chunks alone |
| ToolCallDrafts.DropSupersededToolCallDrafts | packages/agent/src/agent-loop-utils.ts:385-406 | the nested loops keep exactly the calls no later call supersedes |
| ToolCallDrafts.DroppedIff | packages/agent/src/agent-loop-utils.ts:408-430 | a call is dropped iff a later complete call of its tool continues its truncated text or follows it as one of several empty ones |
| ToolCallDrafts.TrimExact | packages/agent/src/agent-loop-utils.ts:416-417 | trimming removes white space from both ends and leaves none there |
| ToolCallDrafts.DroppedHasSurvivor | packages/agent/src/agent-loop-utils.ts:408-426 | every dropped call has a later, untruncated, kept call of the same tool |
| ToolCallDrafts.RealCallsSurvive | packages/agent/src/agent-loop-utils.ts:408-430 | an untruncated call with arguments is never dropped |
| ToolCallDrafts.KeptIsSubsequence | packages/agent/src/agent-loop-utils.ts:394-405 | the result is a subsequence of the calls |
| ToolCallDrafts.FilterIdempotent | packages/agent/src/agent-loop-utils.ts:385-406 | filtering twice is filtering once |
| AsyncBridge.Bridge.OnNext | packages/agent/src/bound-agent-loop.ts:206-209 | the value callback is the machine's step |
| AsyncBridge.Bridge.OnError | packages/agent/src/bound-agent-loop.ts:210-214 | the error callback is the machine's step |
| AsyncBridge.Bridge.OnComplete | packages/agent/src/bound-agent-loop.ts:215-218 | the completion callback is the machine's step |
| AsyncBridge.Bridge.Run | packages/agent/src/bound-agent-loop.ts:220-241 | the consumer's code between suspensions is the machine's step |
| AsyncBridge.RunKeepsInv | packages/agent/src/bound-agent-loop.ts:194-244 | the bridge's invariant holds in every interleaving |
| AsyncBridge.EmittedExact | packages/agent/src/bound-agent-loop.ts:206-209 | the values recorded as emitted are those the source pushed, in order |
| AsyncBridge.EndedExact | packages/agent/src/bound-agent-loop.ts:210-218 | the source has ended iff the run has an error or a completion |
| AsyncBridge.HistoryExact | packages/agent/src/bound-agent-loop.ts:210-214 | the error is the one the source ended with, and it overtook a value iff the consumer had been woken but not resumed |
| AsyncBridge.NoErrorRecorded | packages/agent/src/bound-agent-loop.ts:215-218 | without an error event no error is recorded |
| AsyncBridge.NoLostWakeup | packages/agent/src/bound-agent-loop.ts:221-235 | a waiting consumer means an armed wake-up, an empty queue and an open source; yields are an in-order prefix, and all values on a finish |
| AsyncBridge.ErrorDiscardsExactly | packages/agent/src/bound-agent-loop.ts:232-234 | a throw discards queued values iff the error overtook a wake-up |
| AsyncBridge.ErrorOvertakesValue | packages/agent/src/bound-agent-loop.ts:229-234 | a run in which a value is lost |
| AsyncBridge.EndedSourceDrains | packages/agent/src/bound-agent-loop.ts:221-241 | after the source ends the consumer terminates: finished with every value, or throwing its error |
| Fingerprint.Canonicalize | packages/agent/src/cached-turn-state.ts:48-60 | the recursive method fills fresh objects to the specified canonical form |
| Fingerprint.FilledFits | packages/agent/src/cached-turn-state.ts:53-56 | assigning sorted keys gives the object's enumeration order (array indices first) and all properties but the prototype's |
| Keys.IndexKeyIsIndex | packages/agent/src/cached-turn-state.ts:53-55 | the keys that come first are the decimal numbers below 2^32 - 1 |
| Fingerprint.CanonicalIff | packages/agent/src/cached-turn-state.ts:40-47 | two values share a canonical form iff they agree up to key order, `__proto__` properties aside |
| Fingerprint.CanonPreservesIff | packages/agent/src/cached-turn-state.ts:52-57 | the canonical form means the same value iff no object has a `__proto__` key |
| Fingerprint.CanonIdempotent | packages/agent/src/cached-turn-state.ts:48-60 | canonicalizing twice is canonicalizing once |
| Fingerprint.ProtoIsLost | packages/agent/src/cached-turn-state.ts:53-55 | an object with that one key shares its canonical form with the empty object |
| Fingerprint.FingerprintIgnoresOrder | packages/agent/src/cached-turn-state.ts:73-90 | the same tools in any order, schema keys in any order, give the same hash input |
| Fingerprint.TwoToolsHashed | packages/agent/src/cached-turn-state.ts:73-90 | what is hashed for two tools out of order beside an unnamed one, letter for letter |
| FingerprintOrder.JoinedDetermines | packages/agent/src/cached-turn-state.ts:88-90 | with the same names and texts that do not begin one another, the joined text determines the tool list |
| FingerprintOrder.ConflictChangesHashInput | packages/agent/src/cached-turn-state.ts:84-90 | where a name has two schemas, some reordering changes the hash input |
| FingerprintOrder.OrderDoesNotShowIff | packages/agent/src/cached-turn-state.ts:84-90 | reordering tools never changes the hash input iff no name is given two schemas |
| Keys.CompareBytewise | packages/shared/src/strings.ts:252-256 | the sign tells which of less, equal and greater holds, and exactly one does |
| Keys.KeyLessIff | packages/shared/src/strings.ts:252-256 | the order goes by the first differing code unit, a beginning first |
| Keys.KeyLessTransitive | packages/shared/src/strings.ts:253-253 | the order behind it is transitive, so with the row above it is total |
| Keys.SortIsStable | packages/agent/src/cached-turn-state.ts:84-84 | entries with one name keep their order |
| HistoryBoundary.FindHistoryBoundary | packages/agent/src/history-boundary.ts:11-39 | the loops compute the specified boundary for any counts and budget |
| HistoryBoundary.BoundaryOpens | packages/agent/src/history-boundary.ts:29-38 | sought from the fill's start or the last two messages, whichever is earlier, it is the first user message from there, else the last of all; without any, the first message that is no tool_result |
| HistoryBoundary.OpenerIsLegal | packages/agent/src/history-boundary.ts:42-55 | exactly when the opener is wire-legal |
| HistoryBoundary.BoundaryAntitone | packages/agent/src/history-boundary.ts:11-39 | a larger budget never moves the boundary later |
| HistoryBoundary.ScanIsLongest | packages/agent/src/history-boundary.ts:19-25 | the fill's start is the longest suffix that fits |
| HistoryBoundary.SuffixAddsUp | packages/agent/src/history-boundary.ts:17-25 | token counts of a suffix add up |
| HistoryBoundary.KeptFits | packages/agent/src/history-boundary.ts:27-38 | the kept suffix fits iff the boundary is not before the fill's start, which takes the two-message floor or the last-user fallback |
| HistoryBoundary.KeptFitsAnyCounts | packages/agent/src/history-boundary.ts:19-27 | whatever the signs of the counts, a boundary at or after the fill's start keeps a suffix that fits |
| AffectedPackages.BuildWorkspaceGraph | scripts/test-affected.ts:82-117 | the last manifest of a name and of a directory counts, and the dependents are the dependencies inverted |
| AffectedPackages.NeedsAreDeclared | scripts/test-affected.ts:96-111 | an edge of the graph is a scoped name listed in a manifest |
| AffectedPackages.PackageDirExact | scripts/test-affected.ts:125-128 | a file maps to `packages/<segment>` iff it lies below it |
| AffectedPackages.GraphKeysMatchFiles | scripts/test-affected.ts:69-80 | with either path separator the graph's key of a package is the directory its files map to |
| AffectedPackages.Closure | scripts/test-affected.ts:198-211 | the worklist ends with exactly the directories reachable from the direct ones |
| AffectedPackages.DetermineAffectedPackages | scripts/test-affected.ts:182-214 | all packages on a global file, else the closure of the directly changed ones |
| AffectedPackages.SelectPackages | scripts/test-affected.ts:234-236 | inversion and worklist together select exactly the packages that reach a changed one through declared dependencies |
| AffectedPackages.GlobalFilesSelectAll | scripts/test-affected.ts:59-67 | any of the seven global files selects every package, and none lies in a package |
| AffectedPackages.SelectionIsMonotone | scripts/test-affected.ts:182-214 | more changed files never select fewer packages |
| AffectedPackages.SelectionIsClosed | scripts/test-affected.ts:196-197 | a dependent of a selected package is selected |
| WarmPoke.SelectWarmPokeTargets | packages/agent/src/cache-warm-poke.ts:112-212 | the gated loop returns, without repeats, exactly the threads that pass every gate |
| WarmPoke.UserAnchorExact | packages/agent/src/cache-warm-poke.ts:121-132 | the user anchor is the newest live user message after the cutoff |
| WarmPoke.CronAnchorExact | packages/agent/src/cache-warm-poke.ts:139-150 | the other anchor is the newest run after the cutoff of a live task without history |
| WarmPoke.AnchorIsLatest | packages/agent/src/cache-warm-poke.ts:148-151 | the anchor is the later of the two |
| WarmPoke.LatestTurnExact | packages/agent/src/cache-warm-poke.ts:163-168 | the turn looked at is the thread's latest |
| WarmPoke.SelectedWindow | packages/agent/src/cache-warm-poke.ts:170-179 | the other gates open, a thread is selected iff its latest turn used the cache and would lapse within one scan but has not |
| WarmPoke.LivenessMatters | packages/agent/src/cache-warm-poke.ts:194-206 | a client-tool thread is selected only while its session is live, and liveness matters to no other |
| WarmPokeRuns.OneRow | packages/agent/src/cache-warm-poke.ts:184-191 | which rows are activity and which count as pokes |
| WarmPoke.ExactlyOneScan | packages/agent/src/cache-warm-poke.ts:174-179 | for a period up to the TTL exactly one scan falls in a turn's last period, and it does not precede the turn |
| PokeCap.StepCappedIff | packages/agent/src/cache-warm-poke.ts:120-192 | for every event, rewritten rows included, the pokes made since the last real activity stay within the cap iff the check on the state before it passes |
| PokeCap.LostTaskIff | packages/agent/src/cache-warm-poke.ts:139-150 | when a task stops counting the cap survives iff it holds since the last activity of everything else |
| PokeCap.LostMessageIff | packages/agent/src/cache-warm-poke.ts:122-132 | so it is when a message is tombstoned |
| PokeCap.RedactionKeepsCap | packages/agent/src/redaction.ts:12-28 | redacting a message never breaks the cap at once |
| PokeCap.ScanBreaksIff | packages/agent/src/cache-warm-poke.ts:181-192 | a scan breaks the cap iff it pokes a thread that was already poked as often as allowed since its last activity |
| PokeCap.RunCappedIff | packages/agent/src/cache-warm-poke.ts:22-24 | over any run the cap holds in every state iff every check along the way passes |
| PokeCap.TameRunIsCapped | packages/agent/src/cache-warm-poke.ts:22-24 | it always holds over runs in which no rewrite takes activity back or hides a poke |
| PokeCap.PokesAreCapped | packages/agent/src/cache-warm-poke.ts:22-24 | so it does from an empty database on |
| PokeCapFailures.RedactedPokeIsRepeated | packages/agent/src/redaction.ts:41-44 | a run with one poke allowed and two made: the first one's row was redacted |
| PokeCapFailures.LostTaskMergesPeriods | packages/web/src/server/routes/connectors.ts:48-51 | a run in which the task whose run separated two pokes is soft-deleted, or has `no_history` cleared |
| PokeCapFailures.RestoreMergesPeriods | packages/cli/src/commands/restore.ts:132-140 | a run in which the message that separated two pokes is tombstoned |
| WarmPokeRuns.RunStaysWarm | packages/agent/src/cache-warm-poke.ts:174-179 | while a thread's gates stay open successive turns are less than the TTL apart and the cache is warm at every scan |
| WarmPokeRuns.NeverLapsesIff | packages/agent/src/cache-warm-poke.ts:81-86 | every scan after a warming turn finds the cache warm, in every run, iff the period is below the TTL |
| WarmPokeRuns.PeriodOfTheLifetime | packages/agent/src/cache-warm-poke.ts:174-179 | with the period equal to the TTL, a turn between two scans is poked by the second, and its thread is cold at the third |
| WarmPokeRuns.TurnStartsChain | packages/agent/src/cache-prediction.ts:49-56 | any cache-active turn starts such a chain, wherever it falls between two scans |
| ContextBudget.ComputeInflationRatio | packages/agent/src/inflation-ratio.ts:30-75 | the loops compute the mean of the recent valid samples, or none below three |
| ContextBudget.InflationExact | packages/agent/src/inflation-ratio.ts:30-75 | the ratio is the mean of the samples among the ten newest turns, none below three |
| ContextBudget.SampleExact | packages/agent/src/inflation-ratio.ts:62-69 | a sample times the estimate is the actual count; there is one iff both are known and the estimate is positive |
| ContextBudget.OneMoreTurn | packages/agent/src/inflation-ratio.ts:62-74 | each further turn adds its sample to the samples and to their sum |
| ContextBudget.InflationIsAMean | packages/agent/src/inflation-ratio.ts:62-75 | the ratio lies between the smallest and the largest recent sample |
| ContextBudget.MarginExact | packages/agent/src/context-assembly.ts:207-215 | the margin is a fiftieth of the window rounded down, at least 512 |
| ContextBudget.TargetExact | packages/agent/src/context-assembly.ts:183-215 | an estimated prompt is within the target iff, inflated, it leaves the output reserve and, as it is, the margin |
| ContextBudget.HistoryExact | packages/agent/src/context-assembly.ts:2395-2398 | a history is within its budget iff with the fixed costs it is within the target |
| ContextBudget.SoftWithinHardIff | packages/agent/src/context-assembly.ts:2395-2432 | the soft budget is within the hard ceiling for every fixed cost iff the inflated target fits the effective budget |
| ContextBudget.ReserveCoversMargin | packages/agent/src/context-assembly.ts:183-215 | an output reserve of at least the safety margin suffices |
| ContextBudget.SoftAboveHard | packages/agent/src/context-assembly.ts:2395-2432 | without a reserve the soft budget exceeds the ceiling |
| ContextBudget.RecentFitsWindow | packages/agent/src/context-assembly.ts:2412-2432 | a recent tier is within a positive ceiling iff, inflated, it fits the window beside the fixed costs |
| ContextBudget.OutputReserveIsKept | packages/agent/src/inflation-ratio.ts:77-92 | a prompt within the target, wholly inflated, leaves the model its output reserve |
| ContextBudget.HistoryBudgetIsSound | packages/agent/src/context-assembly.ts:2395-2398 | so does any history within a positive history budget |
| ContextBudget.WholePromptFitsIff | packages/agent/src/context-assembly.ts:2412-2432 | with the fixed costs inflated as well, a recent tier fits iff it is within the deflated budget less the fixed costs |
| ContextBudget.TierAtCeilingFitsIff | packages/agent/src/context-assembly.ts:2427-2432 | the ceiling is never below that bound, and a tier at the ceiling fits iff the two are equal |
| ContextBudget.NoInflationFits | packages/agent/src/context-assembly.ts:2427-2432 | they are for a positive ceiling without inflation above one |
| ContextBudget.FixedCostsInflateToo | packages/agent/src/context-assembly.ts:2412-2432 | an input for which they are not: a tier at the ceiling exceeds the window |

## Left out

- Storage, change-log writes, the relay, the event bus, telemetry, timers and model streaming: rows and answers of queries are inputs.
- Message content: `render` stands for the bytes a row is annotated to at a given instant, and the ids inside a tool_call's JSON are a field.
- Timestamps are integers, clock readings of the change log are naturals; only their order matters to the code modelled.
- DelegationSegments.LoadRowsAsc: message ids are primary keys, so the annotator's map from a call's id to its first block is read as that call's own first id.
- DelegationGate.EveryCandidateHostResolves: for threads of at most 100000 live rows; beyond the limit the two replicas may load different windows.
- DelegationGate.NoCandidateHostLacksARow: likewise, for a host table of at most 100000 live rows.
- DiffRoundTrip.DiffApplies: for names without a newline, since one would split the file header; `DiffAppliesTo` has no such condition.
- Base64.Decode: of well-formed text only; the platform's leniency towards other characters is not modelled, and no part the splitter makes needs it.
- RequestAssembler.InferenceRequestPartAssembler.Add: indices and counts are integers, so the check for fractional numbers has no counterpart.
- AgentLoopFrames.AgentLoop.PrepareFrameWarm: compaction of an oversized warm frame is not modelled; whether the result fits the budget is a parameter. The tests for trying the warm path at all (same tools, model and projection, warm cache) are not modelled. The recorded marker positions, used for display, are not modelled.
- AsyncBridge.Bridge.Run: a consumer that abandons the iteration early, which unsubscribes, is not modelled.
- StreamChunks.ParseStreamChunks: JSON.parse is an opaque function that fails or tells whether the object has keys; log output is left out.
- Fingerprint.HashInput: the serializer of a canonical schema is an opaque function, and the hash itself is left out, and texts that begin one another, which those of objects do not, are excluded where reordering must show; functions and dates inside a schema do not occur in JSON.
- HistoryBoundary.FindHistoryBoundary: token counts are integers of any sign, not floating-point numbers.
- WarmPoke.SelectWarmPokeTargets: the warm prediction reads the wall clock separately in the code; here both use the same instant. Timestamps are compared as numbers, not as ISO strings. The staleness rule for client sessions is a set of live threads.
- PokeCap.StepCappedIff: a thread's policy does not change during a run, and a message that bears the poke's mark without being one is not posted.
- ContextBudget.ComputeInflationRatio: real numbers instead of floating point; an input that overflows is not modelled.
- The tier allocation behind the history budget, compaction, tool-pair repair and prompt rendering.
- Model resolution and the claim-and-acknowledge flow of event payloads: decision trees, and fencing that lives in storage.
- Handle tracking, concurrency caps, advisories, tool placement and retrieval deduplication, which would only add easy members.
