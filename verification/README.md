# SignalMap: verified models of its protocols and transformations

SignalMap asks several AI providers the same prompts on a schedule, stores their answers with the
citations they carry, prices every call, and checks the citations against the pages they name. This
Dafny project models the parts of it where a mistake is easy to make and hard to see, and proves what
they are for.

| Module | What it is about |
|---|---|
| `WorkerQueue`, `QueueOutcomes` | the life of one queue item over any number of claims: collisions, billing deferrals, transport retries, grace |
| `CrashSafety`, `CrashRefinement` | the same pass as separate commits by any number of workers, with a crash possible between any two, next to the two sweeps |
| `Dns`, `DnsMessages`, `DnsQuery` | the hand-written DNS codec: compressed names, PTR responses, PTR queries |
| `Cost`, `CostSql`, `CostTwins`, `CostValues` | one pricing rule as Python over a payload and as a SQL expression tree with null propagation |
| `PriceHistory` | the price in force at an instant, and the coalesced price timeline |
| `Claims`, `ClaimBoundaries` (on `Text`, `Utf8`, `Anthropic`, `Gemini`, `Adapters`) | the sentence of an answer that a citation backs, and the adapters whose flattening it must undo |
| `Verifications`, `QuoteVerification`, `QuoteVerdicts`, `ClaimJudge`, `JudgeVerdicts` | append-only verification passes that are cut and retried; the second costs money |
| `Matching`, `Highlight` | leftmost longest-first matching of names, and the splice it feeds |
| `Throttle` | slot reservation between processes over one atomic UPSERT |
| `Backfill`, `Overlaps`, `BlindLabels` | a batched re-extraction, a pairwise counter, a balanced sampler |

Code that changes things step by step is a method or a class proved against a specification function;
the lemmas are about that function. What such a function comes to is stated once more without it, on what
a caller sees: the payload's own numbers, the characters of the answer, the look at a page, the calls
made. Protocols between processes are step functions over a state, and their lemmas range over every
sequence of steps. What the code looks up elsewhere (the clock, the network, the provider's answer, what
another module finds) is a parameter, so the lemmas hold for whatever it returns.

## Where the code falls short of its own description

Each of these is proved as an exact condition, or with a concrete history that shows it.

- **Grace** (app/worker.py:263-267) is said to count from the item's original time. It does in every run
  exactly when the item was not queued after its scheduled time, or was queued so late that it is never
  called for at all (`GraceCountsFromOriginalTimeIff`): the first deferral overwrites `scheduled_for`,
  and the minimum then falls back on `queued_at`.
- **Sweeps** (app/services/queue.py:361-411) are said to share all dead workers' items between them. They
  free one exactly when its `run_id` is null or names a run still pending (`FreedIff`). A worker that
  dies after the run's outcome is committed and before the item's, or on a retry before the item points
  at the new run, leaves an item that stays leased forever (`StrandedForever`,
  `DyingAfterTheAnswerStrands`, `DyingOnARetryStrands`).
- **Paying twice** for one item is ruled out as long as no release of expired leases takes, from a worker
  that may go on to call, an item that is still within its grace by the time it is or by a clock reading
  some worker has yet to claim by (`NothingIsPaidTwice`); reconciliations may come as late or as early as
  they like. A release that does makes a second payment possible with no further such release, so the
  condition is exact for every single release (`ReleaseIsSafeIff`), and with a grace longer than the lease
  such a release happens: a worker slower than its lease is enough (`SlowWorkersPayTwice`).
- **Matched terms** depend on the iteration order of a Python set, for some answer, exactly when two
  candidates differ by case alone (`TermsIgnoreSetOrderIff`); the spans never do.
- **Perplexity's** cost is the same in Python and SQL, at all prices the price form takes, exactly when
  `cached_tokens` adds nothing to `cache_read_input_tokens` (`PerplexityTwinsMatchIff`).
- **Claims** are said to start at the nearest end of a sentence, line, table cell or marker
  (app/services/claims.py:169-180). Of all line breaks only the last one before the marker is looked at,
  so the text taken spans lines exactly when the line of the marker is otherwise empty and what stands
  above it spans lines already (`SpansLinesIff`); `ClaimOverTwoLines` is such a claim.
- **DNS names**: the reader takes the length bytes 64 to 191, which section 4.1.4 of RFC 1035 reserves,
  for long labels, and so accepts more than the standard's names (`AcceptsExactlyTheSpelled`). The query
  reads back exactly when no part of the address is empty or longer than 191 (`QueryReadsBackIff`).

## Model

| member | source | states |
|---|---|---|
| `WorkerQueue.RunQueueItem.constructor` | app/models/schedule.py:200-240 | a new row: queued, both counters at zero, nothing written on it yet |
| `WorkerQueue.RunQueueItem.Claim` | app/services/queue.py:328-358 | only a waiting, due item is claimed; it becomes leased and its claim counter goes up |
| `WorkerQueue.RunQueueItem.ProcessClaimedItem` | app/worker.py:242-412 | one pass leaves the row as the specification of all branches says, and calls the provider exactly when none of the earlier branches ends the pass; `QueueOutcomes.EveryClaimTells` says what that is |
| `WorkerQueue.CountersAlwaysHold` | app/worker.py:377-412 | over every run: `transport_attempts` counts the non-billing failures and nothing else, is at most 4, and at 4 the item is in error; no finished pass leaves it leased; `finished_at` is set exactly for finished items; at most one call succeeds |
| `WorkerQueue.TransportWaitsAreBackoff` | app/worker.py:214-221 | the waits after transport failures are 1, 5, 25 minutes in this order, whatever collisions and billing deferrals come between |
| `WorkerQueue.EveryCallIsCounted` | app/worker.py:348-412 | every provider call is a success, a billing failure or a transport failure, and only one of them |
| `QueueOutcomes.StateFollowsCalls` | app/worker.py:230-239 | over every run, on the item and its calls alone: it is in error exactly when its last call failed as auth or invalid request, or was the fourth failure other than billing, and ended at that call; done exactly when its last call succeeded; no earlier call was of these kinds |
| `QueueOutcomes.FinalFailuresEndTheItem` | app/worker.py:377-386 | an auth or invalid-request failure is an item's last call and ends it in error at that moment, so an item that waits or is done never had one |
| `QueueOutcomes.EveryClaimTells` | app/worker.py:263-412 | in every run, what one claim makes of an item: the first skip reason that holds, a collision's wait of 1, 5 or 25 minutes by claims, and for each kind of answer the status, counter and wait; a claim of an item that is not due changes nothing |
| `QueueOutcomes.EveryCancelTells` | app/services/queue.py:455-466 | in every run only a queued item can be cancelled |
| `WorkerQueue.NoLateCall` | app/worker.py:259-273 | no provider call is later than `queued_at` plus the grace period |
| `WorkerQueue.PaceAlwaysHolds` | app/worker.py:242-412 | while an item waits, its next time is at least a minute per claim and half an hour per billing failure after `queued_at` |
| `WorkerQueue.BoundedLife` | app/worker.py:95-108 | with claims from `queued_at` on, at most grace + 2 claims and 5 + grace / 30 provider calls, however everything interleaves |
| `WorkerQueue.GraceCountsFromOriginalTimeIff` | app/worker.py:263-267 | the exact condition under which the grace period counts from the original time in every run |
| `WorkerQueue.DriftingRunCallsLate` | app/worker.py:263-267 | a collision followed by a call that is later than the original time plus grace |
| `CrashSafety.NothingIsSentUnseen` | app/worker.py:324-355 | in every interleaving with crashes and slow workers: each provider call is for a run its item durably pointed to before, no run is sent twice, a run no item ever pointed to was never sent |
| `CrashSafety.StepKeepsConsistent` | app/worker.py:324-355 | the invariant behind it, step by step |
| `CrashSafety.NothingIsPaidTwice` | app/worker.py:259-412 | over every history in which no release takes an item that can still be claimed within its grace from a worker that may go on to call, crashes between any two commits and untimely reconciliations included: an item is called for again only when every earlier call for it was written down as failed, never after a success and never after an unknown outcome |
| `CrashSafety.StepKeepsHeld` | app/worker.py:259-412 | the invariant behind it, step by step |
| `CrashSafety.StrandedForever` | app/services/queue.py:361-411 | a leased item without a live worker that points at a finished run is never changed by anything again |
| `CrashSafety.FreedIff` | app/services/queue.py:361-411 | in every state any history reaches: a dead worker's item is ever freed, and then by the sweeps alone, exactly when it points at no run or at a pending one |
| `CrashSafety.LateSweepsFree` | app/services/queue.py:361-411 | what late sweeps do: requeue an item without a run, end one whose run is pending in error |
| `CrashSafety.DyingAfterTheAnswerStrands` | app/services/run_execution.py:299-350 | a crash between the run's commit and the item's strands the item |
| `CrashSafety.DyingOnARetryStrands` | app/worker.py:329-345 | so does a crash on a retry, claimed when it is due, before the item points at the new run |
| `CrashSafety.ReleaseIsSafeIff` | app/services/queue.py:361-379 | after a release nothing can be paid twice, short of another untimely release, if and only if every item this release takes from a worker that may go on to call is past its grace, by the time it is and by every clock reading yet to be claimed by |
| `CrashSafety.UntimelyReleasePaysTwice` | app/services/queue.py:361-379 | from every state that keeps the invariant: a release that takes an item within its grace from a worker that may go on to call has a continuation that pays twice for it |
| `CrashSafety.SlowWorkersPayTwice` | app/services/queue.py:361-379 | for every grace longer than the lease: a reachable state in which a worker has outlived its lease, and a continuation of its release in which the provider is called for the item again after a call that succeeded |
| `CrashSafety.ReleaseAfterTheGraceIsSafe` | app/worker.py:259-272 | once the items that live workers are at are past their grace, and no older clock reading is left, a release is safe however late the workers are |
| `CrashRefinement.PassIsItsCommits` | app/worker.py:242-412 | a pass that nobody disturbs and that does not crash leaves, commit by commit, the row `WorkerQueue` gives it, calls exactly when that does, and touches nothing else |
| `CrashRefinement.ReleaseTells` | app/services/queue.py:361-379 | what a release does to each item |
| `CrashRefinement.ReconcileTells` | app/services/queue.py:382-411 | what a reconciliation does to each run and item |
| `Dns.ReadDnsName` | app/worker.py:114-134 | the loop ends on every byte string and returns what the recursive reader returns, errors included |
| `Dns.SpelledIsRead` | app/worker.py:114-134 | a name spelled in the message, with any use of compression, is read back with the offset just after its own bytes if it takes at most sixteen pointers, and refused otherwise |
| `Dns.LongChainsAreRefused` | app/worker.py:126-130 | a chain of seventeen pointers is refused |
| `Dns.LoopsAreRefused` | app/worker.py:126-130 | a name that points back to itself is refused |
| `Dns.ReadIsSpelled` | app/worker.py:114-134 | whatever is accepted was spelled by some encoded name over at most sixteen pointers |
| `Dns.AcceptsExactlyTheSpelled` | app/worker.py:114-134 | the reader accepts exactly the names spelled by labels of 1 to 191 bytes and at most sixteen pointers |
| `Dns.NamesAreShown` | app/worker.py:132-132 | a name read from any bytes is ASCII but for the replacement mark |
| `DnsMessages.ParsePtrResponse` | app/worker.py:144-164 | the two loops return what the recursive reading of sections returns, with the same errors |
| `DnsMessages.SkipQuestions` | app/worker.py:152-155 | the question loop |
| `DnsMessages.CollectTargets` | app/worker.py:156-164 | the answer loop |
| `DnsMessages.ResponseIsRead` | app/worker.py:144-164 | the round trip: from a message built of questions and records, with any compression of at most sixteen pointers a name, exactly the PTR targets come back in order; nothing on another id or an error code |
| `DnsMessages.ReplyIsRead` | app/worker.py:144-164 | the usual reply, whose record's owner points back to the question, gives its one target |
| `DnsQuery.QueryReadsBackIff` | app/worker.py:137-141 | for every address a query can be built for: the reversed address and the offset just after it are read back if and only if every part is 1 to 191 long |
| `DnsQuery.QueryIsMessage` | app/worker.py:137-141 | when every part fits a label of RFC 1035, the query is the encoding of the message with that id, flags 0x0100, one question for the address backwards under in-addr.arpa, type 12 and class 1, and nothing else |
| `DnsQuery.QueryFields` | app/worker.py:137-141 | whatever the parts: id, flags, counts 1, 0, 0, 0, and a closing root, type 12 and class 1 are read off the bytes of every query built |
| `DnsQuery.QueryIsBuiltIff` | app/worker.py:137-141 | a query is built exactly when every part is ASCII and at most 255 long |
| `DnsQuery.LastBadPartDecides` | app/worker.py:137-141 | otherwise the last part that cannot be written gives the error, as the parts are taken backwards |
| `DnsQuery.QueryAndReply` | app/worker.py:137-164 | query and answer together: a reply that repeats the question and points back to it gives its one target; the query itself gives none |
| `DnsQuery.QuadsReadBack` | app/worker.py:137-141 | a dotted quad always has a query, and it reads back |
| `DnsQuery.QueryLabelsAreReversed` | app/worker.py:137-141 | splitting the arpa name gives the parts backwards, then in-addr and arpa |
| `Cost.ReadPathLoop` | app/services/cost.py:233-242 | walking the path, a missing step and a null both end in null |
| `Cost.EstimateRunCost` | app/services/cost.py:245-299 | the loop over cache tiers computes the specified estimate |
| `CostValues.GeminiCost` | app/services/cost.py:245-299 | for every Gemini payload: known exactly when both counts, both prices and a price for any cached tokens are there; then (input - cached, at least 0) * input price + output * output price + cached * cache-read price, in millionths of a dollar, rounded to the nearest whole one |
| `CostValues.OpenaiCost` | app/services/cost.py:245-299 | the same for OpenAI and xAI: cached and written tokens come off the input and are billed at their own prices |
| `CostValues.PerplexityCost` | app/services/cost.py:245-299 | the same for Perplexity, with its own two fields |
| `CostValues.AnthropicCost` | app/services/cost.py:245-299 | the same for Anthropic: reads and both kinds of writes come on top of the input |
| `CostValues.DeepseekCost` | app/services/cost.py:245-299 | the same for DeepSeek: cache hits come off the prompt and are billed at their own price |
| `CostValues.PlainCost` | app/services/cost.py:245-299 | the same without cache fields |
| `CostValues.FreeOrUnknown` | app/services/cost.py:205-230 | a free model costs nothing; no payload, or one of no known shape, is unknown |
| `CostValues.Rounds` | app/services/cost.py:299-299 | rounding gives a whole number of millionths, the nearest one, the even one on ties |
| `CostValues.SqlCostIs` | app/services/cost.py:312-419 | for every row, the evaluated SQL expression times a million is the explicit sum of counts times prices, each count the first one shown among the providers' places, the cached ones coming off the input unless an Anthropic count is shown; null exactly when a count or a needed price is missing |
| `CostValues.SqlFreeOrUnknown` | app/services/cost.py:408-419 | a free model's row is 0, and one without a payload null |
| `CostSql.RunCostEval` | app/services/cost.py:312-419 | the built SQL expression, under null-propagating evaluation, is the cost that the first-present chains define |
| `CostTwins.SqlIsBill` | app/services/cost.py:312-419 | the SQL form is one bill over the counts its chains find |
| `CostTwins.ExactIsBill` | app/services/cost.py:245-299 | the Python form is one bill over the counts of the selected shape |
| `CostTwins.SubqueriesArePricesAt` | app/services/cost.py:338-346 | the price subqueries find the prices of `prices_at` |
| `CostTwins.TwinsAgree` | app/services/cost.py:205-299 | for every payload of one provider, every history without two rows of a component at one instant, and every instant: SQL is null exactly when Python is unknown, and otherwise Python is the SQL value rounded to a millionth |
| `CostTwins.PerplexityTwinsMatchIff` | app/services/cost.py:147-154 | the exact condition on a Perplexity payload with whole counts for the two forms to agree at all prices the price form takes |
| `PriceHistory.ComputePricesAt` | app/services/cost.py:514-530 | the loop keeps the latest effective row of each component |
| `PriceHistory.LatestIsInForce` | app/services/cost.py:514-530 | that row is effective, none effective is later, and a component without one has no price |
| `PriceHistory.PriceHistoryRows` | app/routers/ai_models.py:104-156 | grouping and coalescing give the specified groups |
| `PriceHistory.GroupRows` | app/routers/ai_models.py:130-132 | each component's rows, in order |
| `PriceHistory.CoalesceRows` | app/routers/ai_models.py:139-154 | the loop that extends the last span in place |
| `PriceHistory.CoalescedIsTimeline` | app/routers/ai_models.py:139-154 | contiguous spans, only the newest open-ended, neighbours differing in price |
| `PriceHistory.TimelineMeansPricesAt` | app/routers/ai_models.py:104-156 | at every instant a component has a price exactly when one of its spans contains the instant; there is then exactly one, and it shows that price |
| `PriceHistory.GroupsFollowTypes` | app/routers/ai_models.py:134-156 | exactly the priced components are shown, each with its own timeline |
| `PriceHistory.EveryComponentIsShown` | app/routers/ai_models.py:134-156 | every component with a row has its group, no other has, each once and in the fixed order, and every span in it is of that component |
| `Claims.BoundaryBefore` | app/services/claims.py:169-197 | the walk over candidates, nearest first, finds the specified boundary |
| `Claims.PrecedingWordLength` | app/services/claims.py:157-166 | the maximal run of word characters before a position |
| `Claims.BoundaryIsNearest` | app/services/claims.py:169-197 | the boundary is the nearest candidate with something but whitespace after it; `ClaimBoundaries.BoundaryIff` says what the candidates are |
| `ClaimBoundaries.BoundaryIff` | app/services/claims.py:169-197 | a place is the boundary if and only if it is 0 or the last one, followed by something but whitespace, that is the end of a sentence, just after the last line break or pipe, or the end of a marker in a left-to-right scan, each stated on the characters |
| `ClaimBoundaries.ScanEnds` | app/services/claims.py:61-61 | the search for markers finds the one left-to-right scan: markers one after the other, every marker starting inside one of them |
| `ClaimBoundaries.StartsOnLastLine` | app/services/claims.py:186-188 | when something stands before the marker on its own line, nothing of the lines above is taken |
| `ClaimBoundaries.SpansLinesIff` | app/services/claims.py:186-197 | the exact condition under which what is taken spans lines |
| `ClaimBoundaries.ClaimOverTwoLines` | app/services/claims.py:186-197 | an OpenAI claim of two lines, with an empty line before the marker |
| `Claims.SentenceEndsAreAll` | app/services/claims.py:180-186 | scanning from match to match misses no sentence end |
| `Claims.CleanLeadingLoop` | app/services/claims.py:200-212 | the loop ends and strips every leading mark |
| `Claims.CleanIsIdempotent` | app/services/claims.py:200-212 | cleaning twice is cleaning once |
| `ClaimBoundaries.LeadingTokenIff` | app/services/claims.py:72-74 | the mark stripped is the emphasis, heading, bullet, number or cell mark the text starts with, with its spaces, and there is none only when it starts with none |
| `ClaimBoundaries.CleanTakesMarks` | app/services/claims.py:200-212 | cleaning takes off the blank ends and then mark after mark until none is left |
| `Claims.CleanedIsFound` | app/services/claims.py:241-245 | the search for cleaned text never fails |
| `Claims.FindClosestOccurrence` | app/services/claims.py:271-295 | the loop computes the specified occurrence |
| `Claims.ClosestIsNearest` | app/services/claims.py:271-295 | over all occurrences, overlapping ones included: least distance to the hint, earliest on ties |
| `Claims.HintIsExact` | app/services/claims.py:251-268 | the UTF-8 length of the first k characters becomes k |
| `Claims.HintIsEnclosingChar` | app/services/claims.py:251-268 | any other offset becomes the character whose bytes it falls into |
| `Claims.GeminiFindsTheRightOccurrence` | app/services/claims.py:251-295 | a segment that stands at character k is located at k, however often it recurs |
| `Claims.ScanForward` | app/services/claims.py:326-334 | the forward scan to the end of the sentence or line |
| `ClaimBoundaries.ForwardEndIff` | app/services/claims.py:326-333 | the window ends with the first terminator, before the first line break, or with the text |
| `Claims.DeriveOpenaiClaim` | app/services/claims.py:215-248 | computes the specified claim |
| `Claims.DeriveGeminiClaim` | app/services/claims.py:298-343 | computes the specified claim |
| `Claims.DeriveAnthropicClaim` | app/services/claims.py:105-154 | the loops over blocks compute the specified claim |
| `Claims.OpenaiClaimIsSlice` | app/services/claims.py:215-248 | a slice that ends at or before its marker |
| `ClaimBoundaries.OpenaiClaimIs` | app/services/claims.py:215-248 | an OpenAI claim is the cleaned text between boundary and marker, where it first stands; from one boundary further back exactly when fewer than fifteen characters are left |
| `Claims.GeminiWindowHoldsSegment` | app/services/claims.py:298-343 | the window the claim is cut from contains the located segment |
| `ClaimBoundaries.GeminiClaimIs` | app/services/claims.py:298-343 | a Gemini claim is the cleaned text from the boundary before the located segment to the end of its sentence or line |
| `Claims.AnthropicClaimIsSlice` | app/services/claims.py:105-154 | a slice of the joined answer |
| `Claims.EveryClaimIsSlice` | app/services/claims.py:81-102 | for all three providers a claim is a literal, non-empty, in-bounds slice of the answer |
| `ClaimBoundaries.ProvidersTell` | app/services/claims.py:81-102 | which provider's citations get a claim, in which way, and that no others do |
| `Claims.AnthropicTracesBack` | app/services/claims.py:105-154 | each citation at position p is traced to the very block and place that carried it; the URL check never rejects it; the claim lies in that block's part of the answer |
| `Utf8.PrefixDecodes` | app/services/claims.py:251-268 | decoding a cut of encoded text with errors ignored gives the characters that fit whole |
| `Utf8.DecodesBack` | app/services/claims.py:251-268 | decoding undoes encoding |
| `Utf8.LongerTextMoreBytes` | app/services/claims.py:251-268 | a longer prefix has more bytes, so the hint is unambiguous |
| `Text.StripCuts` | app/services/claims.py:200-212 | stripping cuts the longest blank ends and nothing else |
| `Anthropic.MapCitations` | app/adapters/anthropic.py:49-96 | the nested loops compute the specified list; the flag tells whether it is empty |
| `Anthropic.FlatteningIsTraceable` | app/adapters/anthropic.py:49-96 | every citation of every text block is kept, in order, at the running position, and nothing is added |
| `Anthropic.MappedShows` | app/adapters/anthropic.py:49-96 | each citation, field by field: address, title, passage, domain, position, and no place in the answer |
| `Anthropic.RenderedTextByBlocks` | app/adapters/anthropic.py:202-204 | the joined answer is cut into the blocks' texts |
| `Gemini.MapCitations` | app/adapters/google.py:81-171 | the citations realise the specified links with positions 0, 1, 2, ...; the flag is true exactly when there are any |
| `Gemini.CollectPairs` | app/adapters/google.py:136-150 | the loops over supports and indices collect the specified pairs and cited chunks |
| `Gemini.CiteLeftovers` | app/adapters/google.py:167-169 | each chunk not cited is appended once |
| `Gemini.OnePairPerPlace` | app/adapters/google.py:136-150 | one pair for each place where a support names an existing chunk |
| `Gemini.PairsAreNamed` | app/adapters/google.py:136-153 | the pairs are exactly what the supports name among the chunks there are, with start, end, chunk and text read from them |
| `Gemini.CitationsShowLinks` | app/adapters/google.py:55-78 | each citation, field by field: its chunk's address, title and domain, its pair's text, start and end, its position |
| `Gemini.SortKeepsPairs` | app/adapters/google.py:152-154 | sorting is a permutation |
| `Gemini.SortSorts` | app/adapters/google.py:152-154 | in order of the sort key |
| `Gemini.SortIsStable` | app/adapters/google.py:152-154 | equal keys keep their order |
| `Gemini.SortsByKey` | app/adapters/google.py:153-155 | by start, then end with none before 0, then chunk |
| `Gemini.LinksConserveGrounding` | app/adapters/google.py:81-171 | a sorted permutation of all valid pairs, then each never-cited chunk once in order, and nothing else |
| `Gemini.EveryChunkAppears` | app/adapters/google.py:81-171 | every listed source appears, cited or not |
| `Verifications.HasSinceIff` | app/services/verification_display.py:134-155 | the lookup is decided by the citation's own rows of that check since the given time |
| `Verifications.VerificationTable.Append` | app/services/citation_verification.py:356-357 | a committed row goes to the end of the table |
| `QuoteVerification.VerifyCitationsByQuote` | app/services/citation_verification.py:192-377 | the loop leaves the specified table, ending and deferred count |
| `QuoteVerification.CheckOne` | app/services/citation_verification.py:319-376 | which row each branch gives, or none when the archive could not be asked; `QuoteVerdicts.PassTells` says which verdict that is |
| `QuoteVerification.PassAppends` | app/services/citation_verification.py:192-377 | a pass only appends |
| `QuoteVerification.PassPerCitation` | app/services/citation_verification.py:307-376 | each citation reached gets exactly the row its own look and its own earlier rows call for; others get nothing |
| `QuoteVerdicts.PassTells` | app/services/citation_verification.py:306-377 | for every citation of every pass, on the look alone: no row when it is not due or not reached, or its archive cannot be asked before the last attempt; otherwise exactly one, with an if-and-only-if for each of the seven verdicts, and the document, reason and place that go with it |
| `QuoteVerdicts.EveryRowIsDue` | app/services/citation_verification.py:306-377 | every row a pass appends is such a row of a citation it came to |
| `QuoteVerification.PassEnds` | app/services/citation_verification.py:307-377 | a pass finishes exactly when nothing cut it, and defers nothing exactly when no reached citation was left for a retry |
| `QuoteVerification.FinalAttemptNeverDefers` | app/services/citation_verification.py:291-304 | the last attempt defers nothing |
| `QuoteVerification.AtMostOncePerJob` | app/services/citation_verification.py:230-234 | over any attempts of one job, each going over the citations in its own order and cut in any way, and whatever other work adds meanwhile, the job writes at most one row for each citation |
| `QuoteVerification.JobOnlyAppends` | app/services/citation_verification.py:192-377 | no attempt changes an old row |
| `QuoteVerification.FinishedMeansChecked` | app/services/citation_verification.py:59-71 | an attempt that finishes with nothing deferred leaves every checkable citation with a row written since the job began |
| `QuoteVerification.FinishedAloneMeansOnce` | app/services/citation_verification.py:59-71 | and with exactly one, if no other work checks the same citations meanwhile |
| `QuoteVerification.RetriesEqualOnePass` | app/services/citation_verification.py:192-377 | in a steady world, with no other work on the same citations, an interrupted and retried job leaves the rows of one uninterrupted pass |
| `QuoteVerification.VerificationJob.Claim` | app/services/verification_queue.py:152-175 | a queued or deferred job that is due is leased and its attempt counted; any other is left as it is |
| `QuoteVerification.VerificationJob.Conclude` | app/services/verification_queue.py:335-395 | every attempt ends the job as done, failed or deferred with the right wait |
| `QuoteVerdicts.ConclusionTells` | app/services/verification_queue.py:335-395 | with which status an attempt ends, and after how many minutes the next one comes |
| `QuoteVerification.JobEndsSoundly` | app/services/verification_queue.py:335-395 | whatever the captures and the inline judge do: the backoff is never indexed past its end; done means nothing raised, nothing is left, and every checkable citation has been checked since the job began, exactly once if by nobody else; the archive being down never fails a job |
| `ClaimJudge.JudgeCitations` | app/services/claim_judge.py:141-306 | the loop leaves the specified table, judge calls and ending |
| `ClaimJudge.PassPerCitation` | app/services/claim_judge.py:239-306 | each citation costs exactly the call, and gets exactly the row, that its own look and earlier rows call for |
| `JudgeVerdicts.PassTells` | app/services/claim_judge.py:239-306 | for every citation of every pass, on the look alone: whether the judge is paid, whether a row is written, an if-and-only-if for each verdict word, and the reason, quote, price and need for review that go with it |
| `ClaimJudge.AtMostOncePerJob` | app/services/claim_judge.py:160-164 | over any attempts, each in its own order, and whatever other work adds meanwhile, the job writes at most one row for each citation |
| `ClaimJudge.JobOnlyAppends` | app/services/claim_judge.py:150-158 | no verdict is lost or altered from one attempt to the next |
| `ClaimJudge.NeverPaidAgain` | app/services/claim_judge.py:160-164 | once a verdict is committed after an attempt, the job's own or anybody's since it began, no later attempt asks the judge about that citation or writes another |
| `ClaimJudge.TheBill` | app/services/claim_judge.py:141-306 | the job's calls for a citation = verdicts it bought (at most one) + attempts that broke off between asking about it and the commit, whatever other work does |
| `ClaimJudge.FinishedMeansJudged` | app/services/claim_judge.py:166-170 | an attempt that finishes leaves every citation it has work for with a row written since the job began, its own if there was none before |
| `ClaimJudge.FinishedAloneMeansOnce` | app/services/claim_judge.py:166-170 | and with exactly one, if no other work judges the same citations meanwhile |
| `Matching.MatchSpans` | app/analysis/matching.py:16-40 | the specified scan and the matched candidates in candidate order |
| `Matching.FindAll` | app/analysis/matching.py:33-37 | the loop over matches |
| `Matching.LongestFirstSorts` | app/analysis/matching.py:29-29 | the stable sort, longest first |
| `Matching.ScanIsCanonical` | app/analysis/matching.py:16-40 | the spans are in bounds, increasing and disjoint, each the longest candidate where it starts, and every occurrence of a candidate starts inside one |
| `Matching.OccursIff` | app/analysis/matching.py:31-31 | an occurrence letter by letter: equal but for case, with no word character at either end |
| `Matching.ScanTakesAll` | app/analysis/matching.py:16-40 | the same for any candidates, the empty name among them too |
| `Matching.CanonicalIsUnique` | app/analysis/matching.py:16-40 | only one span list is like that |
| `Matching.SpansIgnoreOrder` | app/analysis/matching.py:16-40 | the spans depend on neither candidate order nor set order |
| `Matching.TermsIgnoreSetOrderIff` | app/analysis/matching.py:29-39 | the reported terms do, for some answer, exactly when two candidates differ by case alone |
| `Matching.KeepMatchedMembers` | app/analysis/matching.py:39-39 | each matched candidate once |
| `Highlight.HighlightMatches` | app/routers/runs.py:148-163 | the splice loop produces the specified page |
| `Highlight.DroppingTagsLeavesEmitted` | app/routers/runs.py:148-163 | without its tags the page is the escaped pieces, whatever the spans |
| `Highlight.HighlightKeepsTextIff` | app/routers/runs.py:148-163 | the page without tags is the escaped answer exactly when the spans never step back |
| `Highlight.MatchedSpansHighlightCleanly` | app/routers/runs.py:148-163 | spans from the matcher always are like that |
| `Highlight.EscapeIsInjective` | app/routers/runs.py:148-163 | escaping loses nothing |
| `Highlight.EscapedComesBack` | app/routers/runs.py:148-163 | a browser reading the entities shows the text as it was |
| `Highlight.MarksAreMatches` | app/routers/runs.py:148-163 | each character of the text shows up escaped and in order, and carries the mark exactly when a match covers it |
| `Throttle.ThrottleTable.Reserve` | app/services/rate_limit.py:47-57 | the UPSERT: the slot is now or the row's next free moment, and the row moves one interval past the slot |
| `Throttle.ThrottleTable.Throttle` | app/services/rate_limit.py:33-60 | the caller sleeps exactly up to its slot |
| `Throttle.SlotsFollowOwnKeyOnly` | app/services/rate_limit.py:33-60 | over every interleaving of any processes and clocks the slots on a key are the paced slots of that key's own requests |
| `Throttle.SlotAfterSlot` | app/services/rate_limit.py:33-60 | each slot is max(now, previous slot + its interval) |
| `Throttle.PacedClosedForm` | app/services/rate_limit.py:33-60 | a slot is the latest moment some earlier request forces, and no later |
| `Throttle.SlotsSpreadOut` | app/services/rate_limit.py:33-60 | two slots on a key are as far apart as all intervals granted from the first to the second |
| `Throttle.NobodyResumesEarly` | app/services/rate_limit.py:57-60 | no process goes on before its slot by its own clock |
| `Throttle.RequestIsServed` | app/services/rate_limit.py:33-60 | a free process gets its slot by its next two steps, and goes on as soon as, and no sooner than, it has slept for as long as the slot lay ahead |
| `Backfill.Database.BackfillCitations` | alembic/versions/0028_backfill_citations_from_raw_payload.py:109-169 | the batched run equals the run over all responses at once, for any batch size, with the same counters |
| `Backfill.Database.ProcessBatch` | alembic/versions/0028_backfill_citations_from_raw_payload.py:119-167 | one batch: decide from the counts stored now, delete, insert |
| `Backfill.JoinBatches` | alembic/versions/0028_backfill_citations_from_raw_payload.py:119-167 | two batches one after the other are the run over both |
| `Backfill.EveryResponseIsRight` | alembic/versions/0028_backfill_citations_from_raw_payload.py:109-169 | a rewritten response holds exactly its mapper's output; all others are untouched |
| `Backfill.MappersDecide` | alembic/versions/0028_backfill_citations_from_raw_payload.py:109-169 | afterwards every response whose provider has a mapper holds exactly the mapper's output, and every other what it held |
| `Backfill.StatsAddUp` | alembic/versions/0028_backfill_citations_from_raw_payload.py:109-169 | rewritten + skipped = responses; the table grows by inserted - deleted |
| `Backfill.StatsCountTouched` | alembic/versions/0028_backfill_citations_from_raw_payload.py:109-169 | rewritten counts just the responses with a mapper and something to delete or insert |
| `Backfill.BackfillIsIdempotent` | alembic/versions/0028_backfill_citations_from_raw_payload.py:109-169 | a second run leaves the same table and deletes as many rows as it inserts |
| `Overlaps.FindOverlappingSchedules` | app/routers/schedules.py:242-287 | the search for one schedule |
| `Overlaps.FindAllOverlapCounts` | app/routers/schedules.py:290-326 | the dictionary of counts over all pairs |
| `Overlaps.CountPairs` | app/routers/schedules.py:319-326 | the nested loops count every pair once for both sides |
| `Overlaps.SearchIsExact` | app/routers/schedules.py:242-287 | the search reports the hits and no others |
| `Overlaps.OverlapTells` | app/routers/schedules.py:242-326 | search and counter in terms of prompts, models and personas: a prompt counts by the one it goes back to, its root or itself |
| `Overlaps.OverlapLists` | app/routers/schedules.py:268-287 | a found overlap lists all shared prompts, models and personas and no others |
| `Overlaps.CounterCountsClashes` | app/routers/schedules.py:290-326 | a live schedule's counter is the number of schedules it clashes with |
| `Overlaps.CountersMatchSearchIff` | app/routers/schedules.py:242-326 | the counters equal the search, whatever the schedules contain, exactly when schedules' clients group them as their targets' clients do; the routes take a schedule's client from its target, so they do |
| `BlindLabels.CitationStrata` | app/routers/verification.py:48-77 | each judged citation in the stratum of its newest real judgement, and no others |
| `BlindLabels.LabelTable.NextBlindCitationId` | app/routers/verification.py:80-109 | a citation of a stratum with the fewest labels, lowest id first; none when all are labelled |
| `BlindLabels.LabelTable.SubmitBlindLabel` | app/routers/verification.py:148-167 | a valid label is appended once, anything else is refused |
| `BlindLabels.NextTells` | app/routers/verification.py:80-109 | which citation that is, in terms of strata and labels alone |
| `BlindLabels.NextIsUnique` | app/routers/verification.py:80-109 | there is exactly one citation to offer |
| `BlindLabels.SampleStaysBalanced` | app/routers/verification.py:80-109 | while no stratum is exhausted any two are within one label, for any number of users taking turns one page at a time |
| `BlindLabels.OpenPagesStayBalanced` | app/routers/verification.py:80-167 | with up to n pages open at a time, submitted in any order against offers however old, any two strata are within n labels |
| `BlindLabels.OpenedPageIsSubmitted` | app/routers/verification.py:112-167 | what opening, submitting and closing a page do to labels and to the other pages |
| `BlindLabels.NeverOfferedTwice` | app/routers/verification.py:80-109 | nobody is offered a citation twice |
| `BlindLabels.StopsAfterEveryCitationOnce` | app/routers/verification.py:80-109 | a user stops after exactly one turn per citation, having labelled each once |

## Left out

- WorkerQueue.RunQueueItem.ProcessClaimedItem: notifications, error texts and lease columns are not kept, and classifying a provider's exception is a parameter; a worker's death is the subject of `CrashSafety`.
- WorkerQueue.BoundedLife: ranges over finished passes and cancellations; sweeps act only after a worker's death and belong to `CrashSafety`.
- CrashSafety.NothingIsPaidTwice: manual runs, which can only hold a scheduled run back; a rejected insert ends the worker, which is a crash.
- CrashSafety.ReleaseIsSafeIff: a claim and the look at the item's age that follows it are one step, by one clock reading; another worker cannot defer the item between the two.
- DnsMessages.ResponseIsRead: the 255-byte limit on whole names and the authority and additional sections, neither of which the code looks at; sockets and timeouts.
- CostTwins.TwinsAgree: floats and Decimals are reals and only the final rounding is kept; counts are numbers or null, so payloads whose counts are strings or whose nested objects are not objects, which make the code raise, are outside the model.
- PriceHistory.TimelineMeansPricesAt: the history comes newest first, as the relationship orders it.
- Claims.EveryClaimIsSlice: whitespace, word-character and digit tables are parameters; the fixed regular expressions are predicates on characters; lone surrogates are excluded.
- Utf8.DecodesBack: what decoding makes of bytes that are no beginning of an encoded text, which never come up here.
- CrashRefinement.PassIsItsCommits: the counters, the reasons and the errors written on a row, which `CrashSafety` does not keep.
- Gemini.MapCitations: payloads with the wrong kind of value in some place, which make the mapper raise; the fallback for a domain is a parameter.
- Anthropic.MapCitations: as for Gemini; search queries are not mapped.
- Matching.MatchSpans: case folding is per character, and the regular-expression engine is the predicate its one pattern means.
- Highlight.HighlightMatches: negative span bounds, which no writer of spans produces.
- QuoteVerification.VerifyCitationsByQuote: what `_cited_text`, `derive_claim`, `match_quote` and the archive find are parameters; page numbers, locations, fragments and the stored archive text are not kept in the row.
- QuoteVerification.AtMostOncePerJob: assumes a clock that does not run backwards; `ClaimJudge` does so too.
- QuoteVerification.JobEndsSoundly: the capture loop and the inline judge only enter as work left over or an exception; a failure while recording a failure is not modelled.
- ClaimJudge.JudgeCitations: the prompt text, the parsing of the reply, `select_passages` and `find_chunk` are parameters; the similarity of a quote that was not found is not kept.
- Throttle.SlotsFollowOwnKeyOnly: intervals are whole microseconds, and the UPSERT is one atomic step.
- Backfill.Database.BackfillCitations: each response appears once in the driving query; the mappers are parameters, two of them modelled in `Anthropic` and `Gemini`; logging.
- BlindLabels.LabelTable.SubmitBlindLabel: the free-text note on a label is not kept.
- Overlaps.FindOverlappingSchedules: display names of models and personas in a warning.
- `run_token_sql_expr`, `average_historical_cost` and the budget queries: sums over the same expressions.
- Provider SDK calls, HTTP to archive.org, Postgres, templates, authentication, the other migrations: no logic of their own to prove here.
- Heartbeats, signals and thread joins: liveness by timeouts, with no firm invariant.
- `matching_citation_domains`, `competitive_visibility`, `date_ranges`, `normalize_domain`: they would only add easy members.
