# Verified core of thinktank

This project models the parts of thinktank whose guarantees range over all runs or all
inputs, and proves those guarantees.

- **Job queue** (`JobRows`, `QueueProtocol`, `QueueClaims`, `QueueRows`, `QueueRaces`,
  `QueueLostUpdate`, `JobQueue`). Claim and reclaim are transactions that lock, update and
  commit; complete and fail are later calls of a worker that may have lost its job in the
  meantime and check no ownership. A fail call is two steps, because `session.get` reads the
  row without a lock and the later flush writes only the columns that differ from what was
  read. `JobQueue` has the same operations as methods over the jobs table.
- **Usage ledger** (`UsageLedger`, `UsageWindows`, `UsageLateCall`, `UsageRollup`,
  `UsageLateCount`, `UsageTables`). Limiter transactions count and insert under one advisory lock per API with a
  timestamp fixed when they begin; the rollup aggregates, deletes and commits.
- **Text** (`Text`, `Lines`, `Paragraphs`, `Chunks`, `DocumentChunker`, `TranscriptChunker`,
  `Grounding`, `Evidence`, `Straddling`, `Diarization`). Offset-exact chunking, quote
  grounding and speaker merging. Characters are Dafny's; the whitespace test is one predicate, lower-casing is an
  arbitrary function on words, and times are reals.
- **Data transformations** (`Renormalization`, `ContentMigration`, `Feeds`, `FeedIngestion`,
  `ClaimRegistry`, `Inquiries`, `Observing`, `InquiryRunner`, `Promotions`,
  `PromotionOutcomes`, `TranscriptionHandlers`): migration 008, feed ingestion, inquiries
  with crashes, transcription promotion.
- **Papers** (`AbstractIndex`, `Papers`): abstracts from inverted indexes, deduplication.

Timestamps are integer microseconds. Identifiers are natural numbers; those whose text order
matters stand for their texts. Results of language models, embeddings, fetched pages and
queries without an order are parameters that may take any value the code can meet.

Code that changes state is a method over class fields whose contract gives the whole new
state, both by the functions that specify it and told row by row without them; what is promised about that state over whole runs is proved about the transition
system made of the same functions. `hide` statements keep proofs small.

## What was found

Statements that fail in the code have a lemma with a concrete run or input, and a lemma that
says when they hold.

- Between its read and its write a fail call can be overtaken by a reclaim. A job then waits
  for another claim with its budget used up and its attempts reach twice the budget
  (`QueueRaces.OvertakenRun`). The bounds on attempts hold exactly as long as this does not
  happen (`QueueRows.BoundedUnlessOvertaken`). The number of claims stays within the budget
  in every run (`QueueClaims.ClaimedWithinBudget`).
- An overtaken fail call can also leave a failed row without an error category
  (`QueueLostUpdate.IllFormedRun`). Rows stay well formed in a run exactly if no fail call
  spoils the row it writes, which its reading and the row show
  (`QueueRows.WellFormedUnlessSpoiled`, `QueueRows.FlushShape`); a reading taken while the job
  ran spoils a row only in this way (`QueueRows.RunningReadSpoils`).
- A limiter transaction that records its call after a purge whose time is more than an hour
  and one clock tick after the transaction began can exceed the limit in a window of all
  calls ever recorded (`UsageLateCall.LateCallBreaksWindow`); up to that age it cannot.
- An hour's rollup row counts the calls that were committed and in the table when that rollup
  aggregated, and nothing later is added (`UsageRollup.RowCountsCallsSoFar`,
  `UsageRollup.LateStaysLate`), so a call committed after that step is missed for good
  (`UsageLateCount.LateCallIsNotCounted`). All rows are exact and nothing is purged uncounted
  exactly if no step of the run misses a call (`UsageRollup.RollupsAreExact`): no commit of a
  call into an hour that has its row, and no commit of a rollup over a committed call its
  aggregation did not see, in an hour it adds or among the calls it deletes.
- A quote can be located in the joined evidence of two chunks of a transcript and nowhere in
  the transcript, so an extracted claim can pass the extraction filter and be stored without
  offsets (`Straddling.StraddlingQuote`, `Straddling.StraddlingBundle`). Exactly those bundles
  are safe for every word window that are a word window of the body themselves
  (`Evidence.SafeWindows`), as bundles of consecutive chunks are
  (`Evidence.ConsecutiveBundleIsSafe`); then only an exact substring that reaches into a join
  can be missing from the body (`Evidence.OnlyAcrossAJoin`).
- The DELETE that opens an expert's transaction would leave claim counts too high if it ever
  removed a row (`Inquiries.DeleteKeepsCounts`); since each expert is one transaction, it
  never does (`Inquiries.NothingToDelete`).
- The docstring of `_word_spans` promises offsets into the whole text; the code returns
  offsets relative to `start`, and its caller adds `p_start`. The model follows the code.

## Model

| member | source | states |
|---|---|---|
| QueueClaims.ClaimedWithinBudget | src/thinktank/queue/claim.py:44-137 | in every interleaving, late and overtaken calls included, a job is claimed at most as often as the larger of its type limit and its row limit, and no two open transactions hold one row |
| QueueClaims.InvStep | src/thinktank/worker/loop.py:265-343 | the invariant behind it, claims made plus claims the row allows plus claims that orphaned workers may still cause, survives every step |
| QueueProtocol.LocksHoldStep | src/thinktank/queue/reclaim.py:75-82 | locks stay exclusive and a locked row stays as its locking query found it, whatever anyone else writes |
| QueueRows.BoundedUnlessOvertaken | src/thinktank/queue/claim.py:111-137 | claimable rows have an attempt left, running ones are within budget and none passes it by more than one, in all states of a run exactly if no fail call is overtaken |
| QueueRows.AttemptsWithinTwiceBudget | src/thinktank/queue/reclaim.py:110-126 | with no condition on the run, attempts stay within twice the budget |
| QueueRows.AttemptsExplainedAlways | src/thinktank/queue/reclaim.py:110-126 | every attempt is a claim or the one reclaim a claim allows |
| QueueRows.AttemptsNeverDecrease | src/thinktank/queue/claim.py:64-69 | a row's attempts never go back, in any run |
| QueueRows.WellFormedUnlessSpoiled | src/thinktank/queue/claim.py:64-137 | in every run all rows have the worker, times and category their status calls for, retries being scheduled within the hour, exactly if no fail call spoils the row it writes |
| QueueRows.FlushShape | src/thinktank/queue/claim.py:111-137 | which combinations of the row read and the row found make a fail call's write leave an ill-formed row, both ways |
| QueueRows.RunningReadSpoils | src/thinktank/queue/claim.py:111-137 | after a reading taken while the job ran, that is exactly a final failure whose category had been read and has been lost since |
| QueueRows.WellFormedAlways | src/thinktank/queue/claim.py:64-137 | so in runs whose fail calls find the row they read, late calls included, every row is well formed |
| QueueRows.FlushUndisturbed | src/thinktank/queue/claim.py:105-137 | flushing only changed columns onto an unchanged row writes the intended row |
| QueueRaces.OvertakenRun | src/thinktank/queue/claim.py:105-137 | a run of eleven steps that claims a job beyond its budget of attempts and ends at twice that budget |
| QueueLostUpdate.IllFormedRun | src/thinktank/queue/claim.py:105-137 | a run of fourteen steps after which a failed row has no error category |
| QueueLostUpdate.CategoryLost | src/thinktank/queue/claim.py:133-135 | a fail call leaves no category exactly when it had read the one it reports and the row has lost it since |
| JobRows.BackoffDoublesThenCaps | src/thinktank/queue/retry.py:31-39 | the wait doubles up to the fifth attempt and is an hour from the sixth on |
| JobRows.ParseRetryAfter | src/thinktank/http_utils.py:50-90 | the wait is the given seconds or time until the date, rounded down to the second for dates, cut off at 0 and 300, and absent exactly for a missing or unreadable header |
| JobQueue.SomeRowIsFirst | src/thinktank/queue/claim.py:44-52 | among any rows one is preceded by none in queue order |
| JobQueue.JobsTable.ClaimJob | src/thinktank/queue/claim.py:44-71 | takes an unlocked pending or retrying row that is due and of a requested type, such that every other one has a larger priority number, or the same and is not scheduled before it, unscheduled rows coming first; nothing exactly if there is none; marks it running and changes no other row |
| JobQueue.JobsTable.CompleteJob | src/thinktank/queue/claim.py:74-90 | whole new table after completion, column by column |
| JobQueue.JobsTable.FailJob | src/thinktank/queue/claim.py:93-137 | whole new table after a failure, with the given or the type limit: a retry exactly as many seconds from now as the server asked, or else after the backoff, or the end |
| JobQueue.JobsTable.ReclaimStaleJobs | src/thinktank/queue/reclaim.py:75-138 | exactly the unlocked rows running for longer than the timeout are rescheduled or failed and reported, once each, as they were |
| JobQueue.JobsTable.ProcessJob | src/thinktank/worker/loop.py:281-339 | which of complete and fail a worker calls, and with which limit and wait |
| JobQueue.ClaimThenProcess | src/thinktank/worker/loop.py:281-339 | a claimed and processed job is done exactly on success, retried within the hour exactly after an error with an attempt left, when the server said or after the backoff, and failed otherwise, with the error's category |
| JobQueue.ClaimJobInProtocol | src/thinktank/queue/claim.py:44-71 | the method allows exactly the choices of the protocol's lock step and leaves its state |
| JobQueue.ReclaimStaleJobsInProtocol | src/thinktank/queue/reclaim.py:75-126 | the method is the protocol's lock and commit |
| JobQueue.CompleteJobInProtocol | src/thinktank/queue/claim.py:74-90 | a working worker's completion is the protocol's, possible exactly while the row is not locked |
| JobQueue.FailJobInProtocol | src/thinktank/queue/claim.py:105-137 | an undisturbed failure is the protocol's read followed by its write |
| UsageWindows.EveryWindowWithinLimit | src/thinktank/queue/rate_limiter.py:73-105 | in every run, whatever the order of timestamps, every 60-minute window of the table holds at most the limit |
| UsageWindows.EveryWindowEverWithinLimit | src/thinktank/queue/rate_limiter.py:73-105 | the same of all calls ever recorded when no recording transaction is more than an hour and a tick older than a committed purge |
| UsageWindows.RecordingKeepsBound | src/thinktank/queue/rate_limiter.py:80-105 | counting everything after the window's start, with no upper end, bounds every window that holds the new call |
| UsageLateCall.LateCallBreaksWindow | src/thinktank/handlers/rollup_api_usage.py:155-158 | for every limit from 1 on, every purge time and every older transaction beyond that age, a run that exceeds the limit |
| UsageLedger.OrderedAlways | src/thinktank/queue/rate_limiter.py:73-74 | uncommitted calls belong to open transactions that hold their API's lock, and locks are exclusive |
| UsageLedger.FailureLeavesNothing | src/thinktank/queue/rate_limiter.py:73-105 | every transaction and every rollup may fail at any time, and then nothing of it is left |
| UsageRollup.CallsConserved | src/thinktank/handlers/rollup_api_usage.py:55-81 | in every run, purges included, an hour's row plus the calls too late for it are all calls ever recorded in it |
| UsageRollup.LateStaysLate | src/thinktank/handlers/rollup_api_usage.py:74-79 | a rollup row never changes and a late call is never counted afterwards |
| UsageRollup.RowCountsCallsSoFar | src/thinktank/handlers/rollup_api_usage.py:55-81 | an hour's row counts exactly the calls of the hour committed and in the table when the rollup that added it aggregated; the late ones are all others ever recorded |
| UsageRollup.RollupsAreExact | src/thinktank/handlers/rollup_api_usage.py:55-158 | in every run all rows count all calls of their hours and nothing is purged uncounted, exactly if no step misses a call |
| UsageLateCount.LateCallIsNotCounted | src/thinktank/handlers/rollup_api_usage.py:55-81 | for any number of calls a run whose row counts these and misses one committed late |
| UsageRollup.RollupCountsEveryCall | src/thinktank/handlers/rollup_api_usage.py:55-81 | a rollup's commit leaves every call it found committed in the hours it closed counted, unless the hour had its row before |
| UsageTables.Tables.CheckAndAcquire | src/thinktank/queue/rate_limiter.py:73-105 | refuses exactly when the limit's number of calls of this API, committed or of this transaction, are less than an hour older than its start; records the call exactly when it goes ahead under a limit |
| UsageTables.OnlyOwnCallsCount | src/thinktank/queue/rate_limiter.py:80-85 | tables that agree on those calls give the same answer, whatever else they hold |
| UsageTables.CheckInProtocol | src/thinktank/queue/rate_limiter.py:73-105 | the protocol's check records a call exactly when the method does |
| UsageTables.Tables.RollupApiUsage | src/thinktank/handlers/rollup_api_usage.py:55-166 | a new row for exactly each API and ended hour that has committed calls and no row, with their number and its cost; costs for rows without one; the calls that remain |
| UsageTables.RollupInProtocol | src/thinktank/handlers/rollup_api_usage.py:55-158 | which are those of the protocol's three steps |
| Text.FindSkipsSpace | src/thinktank/llm/claims_extraction.py:144-146 | searching from the end of one word finds the next word where it really is, since only whitespace is skipped |
| Text.AsciiWhitespace | src/thinktank/ingestion/chunker.py:58 | which ASCII characters are whitespace |
| Text.WordsAreMaximalRuns | src/thinktank/ingestion/chunker.py:106-109 | the words of a slice are exactly the maximal runs of characters that are not whitespace |
| Text.WordsCut | src/thinktank/ingestion/chunker.py:106-109 | cutting a slice at a word boundary cuts its word list and nothing else |
| Text.WordsOfSlice | src/thinktank/ingestion/chunker.py:106-109 | word offsets computed in a slice are off by exactly its start |
| Text.WordsWindow | src/thinktank/llm/claims_extraction.py:149-157 | the words of the slice from one word to another are the words between them |
| Grounding.TokensWithOffsets | src/thinktank/llm/claims_extraction.py:141-147 | every token with its true offsets |
| Grounding.GroundQuote | src/thinktank/llm/claims_extraction.py:128-158 | finds a span exactly if the quote is not blank and is a substring or a lower-cased word window, namely the first, and the span has the quote's words |
| Grounding.LocatableInWhole | src/thinktank/ingestion/chunker.py:43-103 | what can be located in a slice cut at word boundaries can be located in the whole |
| Chunks.ChunkQuoteIsInBody | src/thinktank/handlers/run_inquiry.py:140-141 | a quote located in a chunk is located in the body |
| Paragraphs.SeparatorEndIsGreedyMatch | src/thinktank/ingestion/chunker.py:136 | the separator search is the greedy match of the regular expression |
| Paragraphs.ParagraphsLieBetweenSeparators | src/thinktank/ingestion/chunker.py:136 | the paragraphs are what lies between the leftmost matches of the expression, each as long as it can be, and no match starts inside one |
| Paragraphs.ParagraphSpans | src/thinktank/ingestion/chunker.py:133-139 | the index search finds every paragraph that holds a word at its true place |
| DocumentChunker.ChunkDocument | src/thinktank/ingestion/chunker.py:112-169 | chunks are verbatim, numbered, in order and disjoint, hold every word of the body exactly once, at most 350 each, are whole paragraphs or pieces of one over budget, and two neighbours would be over budget together unless the first is in such a paragraph |
| DocumentChunker.SplitParagraph | src/thinktank/ingestion/chunker.py:149-158 | an over-budget paragraph is cut into full slices of its words |
| Lines.SplitJoin | src/thinktank/ingestion/chunker.py:56 | splitting joined lines gives them back exactly if none holds a newline |
| Lines.SplitLineReads | src/thinktank/ingestion/chunker.py:34-40 | a line has a label exactly if it is one of at most 24 characters that begins with "Speaker ", the first colon and space, and the rest |
| TranscriptChunker.LineRecords | src/thinktank/ingestion/chunker.py:53-61 | the non-blank lines with their true offsets and labels |
| TranscriptChunker.ChunkTranscript | src/thinktank/ingestion/chunker.py:43-103 | chunks hold every word once, in order, at exact offsets; they are the groups between necessary cuts, each chunk but the first starting with a line of 25 words or more that is not by the speaker before or with one that would have made 350 words too many; over budget only as a single line, and carry the label of every labelled turn of 25 words or more in them |
| TranscriptChunker.TurnNamesGroup | src/thinktank/ingestion/chunker.py:86-100 | a substantial labelled line names its whole group |
| TranscriptChunker.GroupFitsBudget | src/thinktank/ingestion/chunker.py:89-92 | a group is over budget only if it is one line |
| Evidence.KeepGrounded | src/thinktank/llm/claims_extraction.py:205-214 | keeps exactly the quotes that can be located, in order, and counts the others |
| Evidence.KeptQuotesAreInBody | src/thinktank/handlers/run_inquiry.py:117-120 | what is kept of a one-chunk bundle can be located in the body |
| Evidence.SafeWindows | src/thinktank/handlers/run_inquiry.py:117-141 | every word window of a bundle of any size is one of the body exactly if the whole bundle is |
| Evidence.SafeSubstrings | src/thinktank/handlers/run_inquiry.py:117-141 | the same of exact substrings |
| Evidence.ConsecutiveBundleIsSafe | src/thinktank/handlers/run_inquiry.py:117-120 | bundles of consecutive chunks of either chunker are word windows of the body |
| Evidence.InsideOrAcross | src/thinktank/handlers/run_inquiry.py:117-141 | an exact occurrence in a bundle that reaches into no blank line between chunks is in the body |
| Evidence.OnlyAcrossAJoin | src/thinktank/handlers/run_inquiry.py:117-141 | what such a bundle locates and the body does not is no word window and crosses a join wherever it occurs |
| Straddling.StraddlingQuote | src/thinktank/handlers/run_inquiry.py:117-141 | a transcript of three turns and a quote that, whatever chunks the chunker may return, can be located in the bundle of the first and the third and not in the transcript |
| Straddling.StraddlingBundle | src/thinktank/llm/claims_extraction.py:205-214 | chunking that transcript and filtering against that bundle keeps the quote |
| Diarization.BestRaw | src/thinktank/local_inference/engine.py:164-170 | a turn that shares a stretch of time with the segment, no turn sharing a longer one and no earlier turn one as long; none exactly if no turn shares any |
| Diarization.MergeDiarization | src/thinktank/local_inference/engine.py:151-186 | the text renders lines that tell every spoken text once and in order under the speaker of such a turn, or without one under the speaker before; neighbouring lines by different speakers, labels numbered by first assignment |
| Diarization.NamesAreDistinct | src/thinktank/local_inference/engine.py:156-162 | no two raw labels share a display name, however many there are |
| Diarization.NameTells | src/thinktank/local_inference/engine.py:156-162 | the first 26 speakers have the letters in order, the others their number, counted from one |
| Diarization.StripTrims | src/thinktank/local_inference/engine.py:176 | a stripped text is the original without the whitespace around it, and without any at its ends |
| Diarization.RoundTrip | src/thinktank/ingestion/chunker.py:34-40 | reading the rendered lines back gives the speaker and text list exactly if no text holds a newline and every label fits 24 characters |
| Diarization.TranscriptReadsBack | src/thinktank/local_inference/engine.py:172-186 | the same of the merged transcript, in terms of its segments |
| ContentMigration.ContentTables.Upgrade | alembic/versions/008_renormalize_content_urls.py:109-168 | exactly the survivors of their groups remain, both URLs normalized and unique, with exactly the thinkers of all old rows that come to their URL and their own tags unchanged; each deleted row leaves one of its group that needed no rewriting, or has more tags, or as many and is newer, or else the smaller id; a database that is normalized is left as it is |
| ContentMigration.ContentTables.RewriteSurvivors | alembic/versions/008_renormalize_content_urls.py:160-168 | the updates never meet the uniqueness constraint part-way |
| ContentMigration.ContentTables.ChooseKeeper | alembic/versions/008_renormalize_content_urls.py:133-152 | the keeper of a group is its survivor, so no group deletes another's |
| ContentMigration.ContentTables.PickKeeper | alembic/versions/008_renormalize_content_urls.py:60-86 | the keeper has more tags than any other candidate, or as many and a known newer date, or as many, the same date and the smaller id |
| ContentMigration.ContentTables.MergeAssociations | alembic/versions/008_renormalize_content_urls.py:89-106 | the keeper has its own tags unchanged and each loser's thinker, nothing invented, the losers none, others untouched |
| ContentMigration.ContentTables.GroupByCanonical | alembic/versions/008_renormalize_content_urls.py:125-130 | each rewritten row under the URL it is to get |
| ContentMigration.AfterMigration | alembic/versions/008_renormalize_content_urls.py:18-20 | afterwards a second run has nothing to do and the canonical URLs are exactly the normalized old ones |
| ContentMigration.OneRowPerUrl | alembic/versions/008_renormalize_content_urls.py:132-152 | each old row's URL is on exactly one row, which carries its group's tags |
| Renormalization.NoClash | alembic/versions/008_renormalize_content_urls.py:160-168 | no survivor's new URL is another's old or new one |
| Renormalization.OneSurvivor | alembic/versions/008_renormalize_content_urls.py:31-46 | the policy leaves at most one row of a group |
| Feeds.IngestionKeepsUnique | src/thinktank/handlers/fetch_podcast_feed.py:181-203 | canonical URLs and fingerprints stay unique, within a batch too |
| Feeds.RefetchInsertsNothing | src/thinktank/handlers/fetch_podcast_feed.py:158-259 | the same entries again insert nothing, whatever others inserted in between, with a clock that does not go back |
| Feeds.CutoffNeverMovesBack | src/thinktank/handlers/fetch_podcast_feed.py:158-259 | over all fetches of a source from its creation on, whatever table and feed hold each time, the cutoff never moves back |
| Feeds.SettledAlways | src/thinktank/handlers/fetch_podcast_feed.py:252-259 | because a source that was ever fetched has finished its backfill |
| Feeds.CutoffMovesForward | src/thinktank/handlers/fetch_podcast_feed.py:158-259 | one fetch of any source record moves the cutoff back exactly if it backfills only older episodes after an earlier fetch, which no source left by the handler can do |
| FeedIngestion.FeedTables.FetchFeed | src/thinktank/handlers/fetch_podcast_feed.py:100-283 | rows, source and scan job of one fetch: what is inserted are wanted entries as the feed has them, cataloged exactly if no filter catches them, and every wanted entry is represented afterwards; item_count rises by exactly the rows inserted |
| FeedIngestion.FeedTables.IngestEntries | src/thinktank/handlers/fetch_podcast_feed.py:147-245 | the loop inserts exactly the entries that pass cutoff, guest filter and both layers, and follows the newest |
| Feeds.WantedEntries | src/thinktank/handlers/fetch_podcast_feed.py:158-180 | what cutoff and guest filter let pass, told by dates and by phrases in title and description |
| ClaimRegistry.Match | src/thinktank/discovery/claim_resolution.py:108-128 | the first of the three nearest that is closer than 0.08, or within 0.25 and the same proposition; stopping early misses none of them and no claim above the automatic band is missed at all; the adjudicator is asked only inside its band |
| ClaimRegistry.Registry.ResolveClaim | src/thinktank/discovery/claim_resolution.py:94-146 | the claim attached to or created; it counts one more and its dates span the new one |
| Inquiries.MatrixIsExact | src/thinktank/handlers/run_inquiry.py:248-372 | after any runs, failures and crashes positions count their observations exactly, experts without one have none, claim counts are exact and claim dates span their observations' |
| Inquiries.OneTransactionAtATime | src/thinktank/handlers/run_inquiry.py:245-275 | which steps are possible between transactions and in one, and that failing undoes it |
| Inquiries.NothingToDelete | src/thinktank/handlers/run_inquiry.py:291-296 | the opening DELETE removes nothing |
| Inquiries.DeleteKeepsCounts | src/thinktank/handlers/run_inquiry.py:291-296 | and must not: it keeps claim counts exact only if there is nothing to delete |
| InquiryRunner.Runner.ResolveExpert | src/thinktank/handlers/run_inquiry.py:278-372 | one expert's transaction adds its position and, in order, an observation of each finding on the claim it was resolved to and with its date, and nothing else; each such claim counts its findings, spans their dates and, if new, has the first one's text and the inquiry's headline as parent; other claims stay |
| Observing.GatheredInTurn | src/thinktank/discovery/claim_resolution.py:131-146 | what two batches of findings leave of a claim, one after the other, is what they leave as one |
| InquiryRunner.Runner.RunInquiry | src/thinktank/handlers/run_inquiry.py:245-275 | the loop keeps old positions, adds only what the attempts of this roster that did not fail resolved to, leaves one for each of those, and records their findings, all in the order of the roster |
| Promotions.SafeAlways | src/thinktank/handlers/scan_episodes_for_thinkers.py:132-245 | in every run without late writes each content item has at most one transcription job that is not done |
| Promotions.LeavesCatalogOnce | src/thinktank/handlers/rescan_cataloged_for_thinker.py:85-124 | content leaves the catalog at most once |
| Promotions.PromotionCovers | src/thinktank/handlers/scan_episodes_for_thinkers.py:187-245 | what is promoted is attributed, and has a job exactly if it is undated or not published before the cutoff |
| Promotions.SweepFillsToThreshold | src/thinktank/handlers/enqueue_pending_transcriptions.py:53-101 | a sweep leaves the depth at most at the threshold or as it was, and unless it reaches the threshold covers every eligible item |
| Promotions.OldestFirst | src/thinktank/handlers/enqueue_pending_transcriptions.py:82-88 | it takes the oldest discovered first |
| Promotions.AgeCutoff | src/thinktank/transcription/policy.py:36-56 | no cutoff exactly for a configured age of zero or less, otherwise that many days before now, the default age for a missing or unreadable setting |
| TranscriptionHandlers.Tables.ScanEpisodes | src/thinktank/handlers/scan_episodes_for_thinkers.py:132-245 | exactly the cataloged items of the batch that a host owns or that match become pending, with their hosts and matches as attributions where they have none, and one job each that the age policy allows; nothing else changes |
| TranscriptionHandlers.Tables.RescanCataloged | src/thinktank/handlers/rescan_cataloged_for_thinker.py:114-157 | the same of the found items not attributed to the thinker yet, as a guest |
| TranscriptionHandlers.Tables.EnqueuePending | src/thinktank/handlers/enqueue_pending_transcriptions.py:53-101 | jobs for eligible content without an unfinished one, oldest discovered first, as many as fit below the threshold or as there are |
| AbstractIndex.RoundTrip | src/thinktank/discovery/openalex_papers.py:73-82 | every index of a word list, iterated in any order, gives the words joined by single spaces |
| AbstractIndex.IndexOfIndexes | src/thinktank/discovery/openalex_papers.py:73-74 | every word list has an index |
| AbstractIndex.SortSorted | src/thinktank/discovery/openalex_papers.py:81 | the pairs come out ordered by position, then word |
| AbstractIndex.StringsCompareAtFirstDifference | src/thinktank/discovery/openalex_papers.py:81 | words compare where they first differ, a prefix before what it begins |
| AbstractIndex.Reconstruct | src/thinktank/discovery/openalex_papers.py:73-82 | the loops and the sort produce that text |
| Papers.Deduplicate | src/thinktank/discovery/openalex_papers.py:137-159 | returns exactly the first longest record with an id and 200 characters of each title that has one, in the order in which the titles first appear |

## Left out

- UsageWindows.EveryWindowEverWithinLimit: the age condition is exact as a threshold, in that every older transaction has some run that breaks the window; a given late recording need not break it.
- UsageTables.Tables.RollupApiUsage: does not model the rows computed from the token counts of language-model reviews, which are written by the same pattern from another table.
- Priority changes by the backpressure check after a claim, and the `session.merge` that writes them.
- Admin operations on jobs (cancel, retry, awaiting review) and the jobs' payloads and error texts.
- The polling loop's idle backoff, its semaphore, shutdown and the other schedulers.
- Which of several equally placed rows a query returns: the model allows any.
- Cost columns other than the rollup's estimate.
- Aggregation in a time zone other than UTC.
- `normalize_url` itself: its documented idempotence is assumed in the migration, and it is an arbitrary function in feed ingestion, as is the fingerprint.
- Rows of other tables that refer to content when migration 008 deletes it.
- Feed parsing, podcast person tags and the descriptions carried in the scan job.
- Cosine similarity and approximate search: the candidate list is any list sorted by distance.
- Observations from sources other than inquiries, claim merging, and inquiries on the same claim at the same time, for which the code takes no row lock.
- The hash behind lock keys: keys are any function of the API name, so two APIs may share a lock. That a session lock keeps two runs of one inquiry apart is assumed.
- Promoters running at the same time on the same content; runs are serial.
- Name matching in titles and descriptions: which thinkers a text mentions is a parameter.
- HTTP clients, model inference, audio, the admin pages, the chat agent and authentication.
