# A verified model of the incident extraction pipeline

The repository turns published incident reports into reviewed records. Workers claim jobs from a
Postgres table, fetch and parse a document, ask a language model for a structured record, and route
its doubtful fields to a human. This project models that logic in Dafny and proves what the design
relies on. `dafny verify dfyconfig.toml` checks all of it.

| File | What it models |
|---|---|
| `Common.dfy`, `Ordering.dfy` | nullable columns, JSON values, `strip`; `ORDER BY` over a finite set of rows |
| `Queue.dfy` | rows of `jobs`: the claim, the marks, the attempt budget, the remaining work |
| `Documents.dfy` | the two-hash document store (ADR-007) and what its same-bytes shortcut refines |
| `Pipeline.dfy`, `PipelineSafety.dfy`, `PipelineRuns.dfy` | the worker protocol: any number of open transactions, commits, crashes, reviewers; its invariant; whole runs |
| `Worker.dfy` | `run_once` and the stages as methods that change the tables in place, tied to the protocol |
| `Review.dfy`, `ReviewStore.dfy` | routing, decisions, presentation order; the class that writes `field_reviews` |
| `Forms.dfy`, `FormsLocality.dfy`, `FormsRoundTrip.dfy` | the typed correction form: bind, submit, parse |
| `Migration.dfy`, `MigrationRun.dfy` | merging documents that share a text: the merged tables, and the migration statement by statement |
| `Segmentation.dfy`, `Passages.dfy`, `Candidates.dfy` | sentences, passages, candidate passages |
| `Extractor.dfy` | the validate-and-retry loop and the row it stores |
| `Allocation.dfy`, `Split.dfy` | largest-remainder allocation and the stratified dev/test split |
| `Calibration.dfy` | calibration error and threshold sweep |

SQL tables are maps from row ids to rows. A transaction reads committed rows, keeps its writes
private and commits them at once if every unique index still holds. Fetching, format detection,
parsing, the model, validation, the shuffle, clocks and fresh ids are parameters, so every theorem
holds for all their behaviours. Fields are numbered in the order of their names. The row id is the
last tie-break wherever the source leaves an order open. The two document hashes are injective.

## Where the code and its documentation differ

- `RoutingResult.routed` is documented as being in rank order; the code sorts it by
  (confidence, field). It is in rank order exactly when, among fields of one confidence, the older
  one has the earlier name (`ReviewStore.ReturnedInRankOrder`, promised by `RoutePending` for every
  pass); `ReviewStore.ReturnOrderIsNotRankOrder` is a pass that returns two fields the other way
  round. The routing theorems speak of the set that is routed.
- Migration 0005 says it stops before writing anything when a merge would put two complete
  extractions on one document. Its check compares each duplicate with the canonical row only.
  That decides the merge, whatever the extractions, exactly when no text has more than two rows
  (`Migration.PreCheckDecidesExactlyForPairs`). Any larger group can pass it and still be refused
  by the unique index (`Migration.PreCheckMissesLargerGroups`), and then the whole transaction is
  undone (`MigrationRun.Tables.Merge`).
- A document's `format` is that of its first fetch, so it need not describe the stored bytes
  (`Documents.FormatMayDescribeOldBytes`). What always holds is that some format reads them as the
  text. The column itself does throughout a history exactly when every fetch that moves a document
  is detected as the format the document has, provided no two formats read the fetched bytes as one
  text (`Documents.FormatDescribesBytesExactlyWhenKept`).
- The same-bytes shortcut says the text depends on the bytes because the parser is deterministic,
  but detection also looks at the address and the content type. The refinement theorem therefore
  assumes that bytes determine text, and `Documents.ShortcutDiffersWhenBytesDoNotDetermineText`
  shows when one visit without that tells the two forms apart.
- The attempt budget and the finality of finished jobs belong to one transaction per job, as in
  `run_once`. For a caller that commits the claim on its own neither holds
  (`Queue.SeparateClaimsAreUnbounded`, `Queue.MarksHaveNoStatusGuard`).
- A list row submits nothing when all its members are lists, or objects of lists, and they are
  empty; then the row is lost (`FormsRoundTrip.RowWithoutInputsIsLost`). A form with sound labels
  returns every value it can express exactly when each of its rows, at any depth, has an input that
  always submits (`FormsRoundTrip.EveryValueSurvivesExactlyWhenWellFormed`).
- The stored attempt log is complete unless an unexpected exception ends the loop after a response;
  then it is empty (`Extractor.LogAccountsForResponses`).

## Model

| member | source | states |
|---|---|---|
| Queue.ConcludeKeepsRow | app/queue/postgres_queue.py:105-139 | one claim-to-outcome transaction uses exactly one attempt, never leaves `running`, and requeues only a transient failure below the budget |
| Queue.OnlyQueuedIsAvailable | app/queue/postgres_queue.py:28-30 | among committed rows the visibility-timeout branch of the claim never applies |
| Queue.SeparateClaimsAreUnbounded | app/queue/postgres_queue.py:25-35 | with claims committed on their own a row can be reclaimed any number of times: reclaiming checks no budget |
| Queue.MarksHaveNoStatusGuard | app/queue/postgres_queue.py:112-139 | a failure mark leaves the status of a finished row alone exactly when the row is dead-lettered and the mark is permanent or the budget is spent |
| Queue.CommitLowersWork | app/worker/main.py:83-84 | an attempt lowers the remaining work of the queue even when an ingest enqueues an extract job |
| Queue.EarlierIsClaimedFirst | app/queue/postgres_queue.py:25-35 | of two enqueued jobs the later one is never claimed while the earlier one waits unlocked |
| Queue.ClaimHoldsUntilTimeout | app/queue/postgres_queue.py:28-30 | a claimed row can be claimed again exactly when the timeout has passed since its claim |
| Pipeline.StageErrorsAreRouted | app/worker/main.py:190-211 | a stage error is recorded on the row; a permanent one or a spent budget dead-letters it, any other error requeues it |
| Pipeline.IngestErrorsAreRouted | app/worker/main.py:190-211 | the same for each way a fetch cannot be read |
| PipelineSafety.InitInv | app/db/schema.py:88-140 | the empty system satisfies the invariant |
| PipelineSafety.StepKeepsInv | app/worker/main.py:142-216 | every step of any worker, registration, reviewer or crash keeps the whole-database invariant, exclusive job locks and what each open transaction relies on |
| PipelineSafety.CommitKeepsDatabase | app/worker/main.py:45-130 | a commit accepted by the unique indexes keeps both document hashes unique and true, an extract job for every document, one complete extraction per identity and one review row per field of a complete extraction |
| PipelineSafety.CommitKeepsOthers | app/queue/postgres_queue.py:82-91 | a commit changes nothing that another open transaction read and still relies on |
| PipelineSafety.CommitReviews | app/review/fields.py:80-109 | complete extractions keep exactly their review rows, with the model's values, through insert and routing |
| PipelineRuns.ReachableIsSafe | app/queue/postgres_queue.py:23-37 | in every reachable state no two open transactions hold one job, no committed row is running, attempts stay within the budget and queued implies an attempt left |
| PipelineRuns.RunKeepsInv | app/worker/main.py:142-216 | the invariant over whole runs, by induction over any interleaving |
| PipelineRuns.RunGrows | app/worker/main.py:190-213 | finished jobs, extractions and reviewed fields never change again, attempts never fall, documents keep id, text, title, format and creation time |
| PipelineRuns.RunWork | app/queue/postgres_queue.py:128-139 | every committed attempt uses up remaining work and only a registration adds any |
| PipelineRuns.AttemptsAreBounded | app/worker/main.py:83-84 | for any one source at most twice the attempt budget of attempts is ever committed, whatever fails and whatever other sources do |
| PipelineRuns.RunWorkFor | app/queue/postgres_queue.py:128-139 | from any state, the committed attempts of a source are paid for by its own remaining work or by its one registration |
| PipelineRuns.TotalAttemptsAreBounded | app/worker/main.py:83-84 | over all sources, at most twice the attempt budget for each registration |
| PipelineRuns.CrashLeavesNoTrace | app/queue/postgres_queue.py:85-91 | a crash at any point of a transaction, whatever other workers and reviewers did meanwhile, leaves the state that their steps alone lead to, and the claimed row as it was, the attempt count included |
| PipelineRuns.OpenTxnIsInvisible | app/queue/postgres_queue.py:85-91 | nobody can tell what an open transaction has done: without its steps the run is still possible and ends in the same state but for that transaction |
| PipelineRuns.RunKeepsQueueWithinBudget | app/review/routing.py:36-39 | with a budget the review queue never exceeds it in any run of workers and reviewers |
| PipelineRuns.CommittedExtractionLeavesNoneBelowFloor | app/worker/main.py:110-119 | uncapped, no unreviewed field below the floor is left in the table once a worker's extraction commits |
| Worker.AttemptIsARun | app/worker/main.py:142-216 | what `run_once` commits is the end of a run of the protocol: claim, stage steps, commit |
| Worker.StageIsARun | app/worker/main.py:133-139 | an uninterrupted stage is a sequence of protocol steps that ends with exactly its staged writes |
| Worker.MarkCompletesMerge | app/queue/postgres_queue.py:105-139 | marking the claimed row after the stage's writes yields the job table of the protocol's commit |
| Worker.AttemptHasOutcome | app/worker/main.py:142-216 | in terms of the tables and what the attempt met: a failed fetch, reading, client, document lookup or model call dead-letters the row exactly when it was permanent or the budget is spent and requeues it otherwise; no error completes it, with the document and its extract job, or the extraction, its review rows and a routing pass |
| Worker.Session.Enqueue | app/queue/postgres_queue.py:54-79 | a queued job is added exactly when its id is free |
| Worker.Session.ClaimOne | app/queue/postgres_queue.py:82-102 | the claimed row is available, unlocked and no newer than any other such row; nothing else changes; none is claimed only when there is none |
| Worker.Session.MarkSucceeded | app/queue/postgres_queue.py:105-109 | the new job table, other rows untouched |
| Worker.Session.MarkFailed | app/queue/postgres_queue.py:112-139 | the new job table for permanent, exhausted and retried failures |
| Worker.Session.IngestSource | app/ingest/pipeline.py:82-199 | the document returned holds the fetched bytes and text; a known text is moved, a new one inserted with the detected format and the parsed title; no other row changes, and an error changes nothing |
| Worker.Session.ProcessIngest | app/worker/main.py:45-84 | the document is kept, moved or inserted and its extract job enqueued, or nothing changes; it raises exactly when fetch or reading fails, a permanent failure exactly for a permanent error |
| Worker.Session.ProcessExtract | app/extract/pipeline.py:70-210 | an existing complete extraction is a no-op; otherwise one row, with its reviews and a routing pass when complete; a failed row survives the error, which is permanent exactly when the error met was |
| Worker.Session.ProcessJob | app/worker/main.py:133-139 | the stage's tables are the protocol's merge without the mark |
| Worker.Session.RunOnce | app/worker/main.py:142-216 | the database invariant is kept; the commit is the protocol's merge and has the outcome of the errors met; a refused write rolls everything back, the claim included |
| Documents.PlanIsSound | app/ingest/pipeline.py:88-130 | a planned write keeps or moves a row to bytes that some format reads as its text, or inserts such a row |
| Documents.PerformKeepsTable | app/ingest/pipeline.py:119-188 | an accepted sound write keeps hashes unique and true and changes no document's id, source, text, title, format or creation time |
| Documents.SoundIsStable | app/ingest/pipeline.py:123-151 | a write planned before other transactions committed is still sound after them |
| Documents.PlanIsAccepted | app/ingest/pipeline.py:163-188 | against the table it was planned on, a write is refused only for a taken primary key |
| Documents.PlanHasOutcome | app/ingest/pipeline.py:82-199 | stored bytes change nothing; a known text keeps its row, which takes address, bytes and time of the fetch; an unknown text becomes one new row with the detected format, the parsed text and title |
| Documents.ShortcutRefinesByText | app/ingest/pipeline.py:88-107 | if bytes determine text, over any fetch history ingest with the same-bytes shortcut returns the same documents and errors and keeps the same table as ingest by text, up to address and time of the last fetch |
| Documents.DocumentsAreTexts | app/ingest/pipeline.py:119-122 | documents are in bijection with the distinct texts successfully seen |
| Documents.VisitLandsOnText | app/ingest/pipeline.py:130-161 | every successful fetch returns the document that still holds its text at the end of the history |
| Documents.FormatMayDescribeOldBytes | app/ingest/pipeline.py:131-141 | a two-fetch history after which the format column does not read the stored bytes |
| Documents.MovedFormatReads | app/ingest/pipeline.py:109-141 | a moved document's format column reads the new bytes if the fetch is detected as that format, and, when one format at most reads them as the text, only then |
| Documents.FormatDescribesBytesExactlyWhenKept | app/ingest/pipeline.py:109-141 | over a fetch history the format columns read the stored bytes throughout if and only if every fetch that moves a document is detected as that document's format |
| Documents.ShortcutDiffersWhenBytesDoNotDetermineText | app/ingest/pipeline.py:88-107 | for stored bytes the two forms answer alike exactly when the fetch reads as the stored text; otherwise ingest by text is refused by the unique content hash |
| Review.RouteSetFacts | app/review/routing.py:83-120 | a pass routes only eligible fields, as many as budget and eligibility allow, and no field left out ranks before one routed |
| Review.LowerFloorIsPrefix | app/review/routing.py:62-71 | the ranking at a lower floor is a prefix of the ranking at a higher one |
| Review.IncrementalRouting | app/review/routing.py:83-120 | a pass followed by one with a higher floor and budget routes the set the second alone would |
| Review.RepeatedPassRoutesNothing | app/review/routing.py:100-106 | repeating a pass routes nothing |
| Review.RoutedSetIsLeastConfident | app/review/routing.py:41-42 | no equally large set of eligible fields has a smaller total confidence |
| Review.UncappedPassLeavesNoneBelow | app/review/routing.py:100-101 | an uncapped pass leaves no unreviewed field below the floor |
| Review.PassFillsQueue | app/review/routing.py:83-120 | a pass writes state and time of unreviewed rows below the floor and nothing else, and stops only when the budget is full or no such row is left |
| Review.RankedRowsAscend | app/review/routing.py:41-42 | the ranking goes by confidence, then age, then field |
| Review.NewRowsAreFresh | app/review/fields.py:80-109 | a new row copies the model's value and confidence of its field and has no routing, skip or decision |
| Review.DecideIsSound | app/review/fields.py:138-209 | an applied decision satisfies every CHECK constraint, keeps the row's subject, and a correction is a value of the field's type other than the model's |
| Review.DecideRecords | app/review/fields.py:138-211 | exactly when each refusal is given; a skip touches no decision column; a decision records its time, its note and the reviewer given, less the white space around the name; a correction is stored for `correct` alone |
| Review.RunKeepsTable | app/db/schema.py:267-291 | over any run all constraints hold, reviewed is final under decisions and routing, the model's value never changes, and state moves only forward |
| Review.ReachableTableOk | app/db/schema.py:267-291 | every table reachable from the empty one satisfies the schema |
| Review.RunKeepsBudget | app/review/routing.py:36-39 | with all passes at one budget the routed fields never exceed it once within it, and never grow above what they were before |
| Review.Queue | app/review/queries.py:63-73 | the queue shows exactly the routed fields, each once |
| Review.PagesMakeTheQueue | app/review/queries.py:63-73 | consecutive pages concatenate to the queue from its head, and to all of it once there are enough |
| Review.SkipRotates | app/review/queries.py:27-32 | skipping the first field moves it to the back and keeps the order of the rest |
| Review.SkipsRotate | app/review/fields.py:159-172 | k skips of the field shown rotate the queue by k |
| Review.SkipRoundIsFair | app/review/queries.py:76-78 | a round of n skips shows each of n routed fields exactly once and restores the order |
| Review.FreshQueueIsRanked | app/review/queries.py:27-32 | over never-skipped fields the queue is the routing rank |
| ReviewStore.ReviewStore.CreateFieldReviews | app/review/fields.py:80-109 | one unreviewed row per field, or no change when a key is taken |
| ReviewStore.ReviewStore.RoutePending | app/review/routing.py:83-128 | a negative budget is refused unchanged; otherwise the table, the counts and the returned rows are those of the policy, and the list is in rank order exactly when age and field agree among rows of one confidence |
| ReviewStore.ReviewStore.UpdateReturning | app/review/routing.py:107-120 | the first rows of the ranking within the limit are marked, and returned by confidence and field |
| ReviewStore.ReviewStore.RecordDecision | app/review/fields.py:138-211 | each refusal with its reason and no change, or the one row rewritten |
| ReviewStore.LimitSelectsRouteSet | app/review/routing.py:100-114 | SQL's LIMIT, null included, selects the set the policy prescribes |
| ReviewStore.ReturnedInRankOrder | app/review/routing.py:118-120 | a list sorted by confidence and field is in rank order if and only if, among rows of one confidence, the older has the earlier field |
| ReviewStore.ReturnOrderIsNotRankOrder | app/review/routing.py:118-120 | a pass over two rows of one confidence ranks one of them first and returns the other one first |
| Forms.ParseForm | app/review/forms.py:140-170 | the parser as written, with its loop over rows, computes the recursive parse, and a ticked null box gives null |
| Forms.ParseFormRows | app/review/forms.py:149-160 | the row loop keeps, in numeric index order, exactly the rows that are not blank |
| Forms.TickedMeansNull | app/review/forms.py:145-164 | a ticked null box means null for scalars, choices and objects, whatever else is submitted |
| Forms.TextIsWhatIsLeft | app/review/forms.py:163-170 | a text not ticked null is the middle of the submitted one between two stretches of white space; it is null exactly when nullable and blank |
| Forms.ChoiceIsWhatIsLeft | app/review/forms.py:163-167 | a choice is true or false exactly when that word is what is left, and null otherwise |
| Forms.ObjectIsItsMembers | app/review/forms.py:148-148 | an object has each child under its label, read from the inputs below it |
| Forms.RowIsDroppedExactlyWhenBlank | app/review/forms.py:154-159 | a row is dropped if and only if it has text inputs and each of them is ticked null or blank |
| Forms.LinesAreWhatIsLeft | app/review/forms.py:161-162 | one item for each line that is not blank, in order, without the white space around it |
| Forms.LinesLoseOnlyBreaks | app/review/forms.py:161-162 | cutting a text into lines loses only its line breaks and leaves none |
| Forms.WrongShapeIsAbsent | app/review/forms.py:115-133 | a stored value of the wrong shape renders like an absent one |
| FormsLocality.IndexExactly | app/review/forms.py:151-152 | an input has row index i exactly when it reads as name, dot, digits of i, dot, anything |
| FormsLocality.SiblingsDisjoint | app/review/forms.py:122-127 | inputs of dot-free sibling labels never share a name |
| FormsLocality.ParseIsLocal | app/review/forms.py:140-170 | parsing depends on no input but its own name and those below it |
| FormsLocality.ParseRelocates | app/review/forms.py:140-170 | the same inputs under another name parse to the same value |
| FormsLocality.RenumberingIsInvisible | app/review/forms.py:151-160 | any order-preserving renumbering of row indices leaves the result unchanged |
| FormsRoundTrip.RoundTrip | tests/test_review_forms.py:17-50 | parsing what a browser submits for a bound value gives the value back, for every well-formed form and canonical value, through nested objects, rows and lists |
| FormsRoundTrip.ParseIsCanonical | app/review/forms.py:140-170 | whatever is submitted parses to a value the form can express |
| FormsRoundTrip.RoundTripExactlyWhenCanonical | app/review/forms.py:115-170 | the round trip returns the value if and only if the form can express it |
| FormsRoundTrip.ParsingIsIdempotent | app/review/forms.py:16-24 | re-rendering a parsed submission and submitting it untouched changes nothing |
| FormsRoundTrip.RowWithoutInputsIsLost | app/review/forms.py:124-129 | for every list whose rows have no input that always submits, the row of empty lists submits nothing and parses to no row |
| FormsRoundTrip.EveryValueSurvivesExactlyWhenWellFormed | app/review/forms.py:115-170 | a form with sound labels returns every value it can express if and only if each of its rows, at any depth, has an input that always submits |
| Migration.CanonicalIsOldest | migrations/versions/0005_document_text_hash.py:58-63 | the canonical row is no newer, and the newest no older, than any row of the text |
| Migration.PreCheckIsNecessary | migrations/versions/0005_document_text_hash.py:65-91 | what the pre-check rejects cannot be merged |
| Migration.PreCheckSufficesForPairs | migrations/versions/0005_document_text_hash.py:65-91 | for groups of at most two the pre-check decides the merge |
| Migration.PreCheckMissesLargerGroups | migrations/versions/0005_document_text_hash.py:18-22 | every text with more than two rows admits extractions that pass the pre-check although the unique index forbids their merge |
| Migration.PreCheckDecidesExactlyForPairs | migrations/versions/0005_document_text_hash.py:65-91 | the pre-check decides the merge for all extractions if and only if no text has more than two rows |
| Migration.PartlyMergeable | migrations/versions/0005_document_text_hash.py:107-112 | if the complete merge respects the index, so does every intermediate state |
| Migration.PartKeepsUniqueContent | migrations/versions/0005_document_text_hash.py:113-127 | content hashes are unique at every point of the merge |
| Migration.UpdatingFirstCollides | migrations/versions/0005_document_text_hash.py:113-114 | updating a canonical row before its duplicates are deleted breaks the unique index |
| Migration.MergedIsSound | migrations/versions/0005_document_text_hash.py:13-19 | the merged table satisfies the runtime invariant: unique, true hashes and bytes that read as the text |
| Migration.MergedKeepsTexts | migrations/versions/0005_document_text_hash.py:13-18 | every text survives on its oldest row, which keeps all but its provenance and gets the newest row's |
| Migration.MergedReferences | migrations/versions/0005_document_text_hash.py:102-112 | every job and extraction survives, differs at most in its document, and names a surviving row of the same text |
| Migration.MergeMatchesIngest | migrations/versions/0005_document_text_hash.py:13-18 | ingest by text, given the fetches that stored the rows of a text, ends with the merged row (created at its first fetch) and answers each fetch with it |
| Migration.NothingToMerge | migrations/versions/0005_document_text_hash.py:58-63 | where texts are unique the merge changes nothing |
| MigrationRun.Tables.RepointExtractions | migrations/versions/0005_document_text_hash.py:107-112 | the update happens exactly when the partial unique index still holds |
| MigrationRun.Tables.SetProvenance | migrations/versions/0005_document_text_hash.py:116-127 | the update happens exactly when content hashes stay unique |
| MigrationRun.Tables.SharedTexts | migrations/versions/0005_document_text_hash.py:58-63 | every text with more than one row, once, oldest row first |
| MigrationRun.Tables.CheckBeforeMerging | migrations/versions/0005_document_text_hash.py:65-91 | the loop passes exactly when no duplicate collides with its canonical row |
| MigrationRun.Tables.MergeGroup | migrations/versions/0005_document_text_hash.py:93-127 | one group takes the tables from one stage of the merge to the next, or the merge is impossible |
| MigrationRun.Tables.Merge | migrations/versions/0005_document_text_hash.py:57-127 | succeeds if and only if the merged extractions respect the index, with exactly the merged tables; otherwise nothing changes, and it stops at the check if and only if the check fails |
| Segmentation.MatchIsGreedy | app/review/candidates.py:208-210 | every way to read the boundary expression at a position cuts where the greedy one does: backtracking changes nothing |
| Segmentation.Sentences | app/review/candidates.py:214-229 | the scan cuts the document into trimmed, ascending sentences between splitting white space, losing nothing else |
| Segmentation.SentencedUnique | app/review/candidates.py:214-229 | there is only one such cutting |
| Passages.Passages | app/review/candidates.py:232-248 | passages are verbatim, trimmed, ascending and disjoint, hold every non-blank character, contain no blank line, exceed the window only as a single sentence, and a passage ends only where the next sentence would exceed the window or follows a blank line |
| Passages.PackedIsFaithful | app/review/candidates.py:232-248 | greedy packing implies all that a reader of the passages relies on |
| Passages.PackedUnique | app/review/candidates.py:232-248 | document and window determine the passages |
| Candidates.Select | app/review/candidates.py:261-281 | the choice has exactly max(min(5, scored), min(3, passages)) members, no unchosen match outranks a chosen one, and fill-ins are the earliest passages |
| Candidates.SelectionUnique | app/review/candidates.py:254-260 | these rules leave no choice, so the result is a function of its inputs |
| Candidates.ShownUnique | app/review/candidates.py:254-260 | the candidate list is a function of the cues and the passages |
| Candidates.NamesAreOfMatches | app/review/candidates.py:277-280 | the names shown are those of the cues with a match, in the order of the cues, and their number is the first rank |
| Candidates.HitsAddUp | app/review/candidates.py:264-268 | the second rank is the sum of the matches of all cues |
| Candidates.ChosenAreBest | app/review/candidates.py:254-260 | a match left out has no more distinct cues than a chosen one, among as many no more matches, and then no earlier start |
| Candidates.TopUp | app/review/candidates.py:271-274 | the earliest passages are added until the minimum is reached or none is left |
| Candidates.Candidates | app/review/candidates.py:251-281 | at most five verbatim passages in document order, and at least one when there is any |
| Extractor.FenceIsTransparent | app/extract/extractor.py:65-75 | a fenced object reads as the object itself, whatever the tag |
| Extractor.InlineFenceIsTransparent | app/extract/extractor.py:65-75 | so does one fenced on a single line |
| Extractor.OpenFenceIsTransparent | app/extract/extractor.py:65-75 | so does one whose fence is never closed |
| Extractor.BareIsKept | app/extract/extractor.py:65-75 | an unfenced object reads as itself |
| Extractor.ConversationAlternates | app/extract/extractor.py:149-154 | call n sees an alternating conversation of 2n - 1 messages with every earlier output and complaint in its place |
| Extractor.Extract | app/extract/extractor.py:88-162 | attempts are numbered from 1, all but the last are invalid, each records the client's answer to the conversation so far, and the loop stops at the first valid output, an exception, or exactly the maximum |
| Extractor.LogIsWhatWasReceived | app/extract/extractor.py:131-147 | entry j has the text, usage and model of the client's j-th answer, accepted or rejected, and the validator's error on it; only the last entry of a success is valid, and its output is the result |
| Extractor.RunIsDetermined | app/extract/extractor.py:113-162 | that description admits one run for each client and validator |
| Extractor.UsageTotals | app/extract/extractor.py:55-61 | exactly the reported keys, each with the sum over the attempts |
| Extractor.UsageAddsUp | app/extract/pipeline.py:225-228 | the usage of a log in two parts is the sum of the parts, and that of one attempt is what it reports |
| Extractor.LogAccountsForResponses | app/extract/pipeline.py:115-146 | stored log and usage account for every response exactly when no unexpected exception followed one |
| Extractor.StoredRowMeans | app/extract/pipeline.py:115-210 | the row is complete exactly on success and names the kind of failure otherwise; a non-empty document title replaces the extracted one with source `document_metadata`, and nothing else of the record changes |
| Extractor.Extractions.InsertFailed | app/extract/pipeline.py:213-256 | one failed row is appended with the log, its length and its usage |
| Extractor.Extractions.ExtractDocument | app/extract/pipeline.py:70-210 | no row for a duplicate or a missing document, otherwise one row for the outcome of the loop, titled by the document when it has a title |
| Allocation.LargestRemainder | eval/scripts/make_split.py:85-98 | fails exactly when there are strata but no documents; otherwise each stratum has the floor of its share, and the largest fractions one more |
| Allocation.RemainderFits | eval/scripts/make_split.py:94-97 | the seats left over are fewer than the strata with a fraction |
| Allocation.SeatsAddUp | eval/scripts/make_split.py:86-90 | exactly the requested seats are handed out |
| Allocation.ExtraHasFraction | eval/scripts/make_split.py:95-97 | a stratum with a whole share never gets an extra seat |
| Allocation.SeatsWithinSizes | eval/scripts/make_split.py:117-119 | no stratum gets more seats than it has documents |
| Allocation.LargerGetsNoFewer | eval/scripts/make_split.py:85-98 | a strictly larger stratum never gets fewer seats |
| Allocation.EqualSizesFavourLargerKey | eval/scripts/make_split.py:95-95 | of two strata of one size the one with the larger key gets no fewer seats |
| Allocation.TextBeforeIsLexicographic | eval/scripts/make_split.py:95-95 | profiles compare by their first differing character, a proper prefix first |
| Allocation.LeastDeviation | eval/scripts/make_split.py:85-90 | no other integer allocation of the same seats is closer in total to the exact shares |
| Allocation.AllocationUnique | eval/scripts/make_split.py:95-95 | sizes and seats determine the allocation |
| Split.SizesAddUp | eval/scripts/make_split.py:103-108 | the strata of distinct documents have sizes that add up to their number |
| Split.BuildSplit | eval/scripts/make_split.py:101-137 | with distinct ids the split succeeds exactly for 30 documents, 12 in dev and 18 in test, and the dev documents of each stratum are exactly the first of its shuffle, as many as it is allocated |
| Split.ListingOrderIsInvisible | eval/scripts/make_split.py:113-116 | the order in which documents are listed affects no stratum and no shuffle |
| Calibration.BinsPartition | eval/scripts/score_m5_dev.py:202-207 | the ten bins partition the points, by count and by sum |
| Calibration.BinsAreTenths | eval/scripts/score_m5_dev.py:202-231 | two confidences of one bin differ by at most a tenth, and bin i starts at i tenths |
| Calibration.BinIsAFilter | eval/scripts/score_m5_dev.py:226-231 | a bin holds each point in it as often as it occurs, and no other |
| Calibration.CountsAreOfPlaces | eval/scripts/score_m5_dev.py:237-237 | right answers are counted by their places, and all others are wrong |
| Calibration.ExpectedCalibrationError | eval/scripts/score_m5_dev.py:201-217 | the error lies between the distance of overall accuracy from mean confidence and 1 |
| Calibration.SweepIsMonotone | eval/scripts/score_m5_dev.py:293-301 | along the sweep the routed and wrong-routed counts and the recall never fall; precision is over the routed points and recall over all wrong ones |
| Calibration.RoutedIsAFilter | eval/scripts/score_m5_dev.py:295-296 | a threshold routes each point strictly below it as often as it occurs, and no other |
| Calibration.RoutedGrows | eval/scripts/score_m5_dev.py:293-296 | of the points a higher threshold adds, no more are wrong than are added |
| Calibration.PrecisionFallsExactlyWhenDiluted | eval/scripts/score_m5_dev.py:293-298 | a higher threshold lowers the precision if and only if the points it admits are wrong at a lower rate than those routed already |

## Left out

- Postgres internals: a claim locks the oldest free row in one step; a routing pass happens at the commit of its transaction, as its advisory lock makes it; commits are serialised.
- Clocks: each transaction has one clock reading, for `now()` and for the worker's own `fetched_at`.
- Pipeline steps: the attempts inside one extraction and its stored log are abstracted there to an answer or an error; `Extractor` models them.
- Pipeline steps: a title the document supplies for the record is part of the arbitrary answer there; `Extractor.WithTitle` models it.
- Worker loop: `main` polls forever; only one iteration is modelled.
- Documents: the `storage_backend` column moves with the bytes and is not modelled.
- `form_spec` and `_build`: deriving the input tree from the JSON schema; the form theorems hold for every tree.
- Form template row: `bind` also renders one blank row under a placeholder index; a browser submits it only after the page has numbered it.
- Forms: nullability of the rows of a list is not modelled; in a schema a list item is never null.
- Forms: row indices are ASCII digits, although the source's `\d` also matches other decimal digits.
- Queue.MarksHaveNoStatusGuard: covers failure marks; a success mark sets `succeeded` unconditionally.
- Review.Queue: the joins with `extractions` and `documents` only add columns, so the queue is modelled over `field_reviews`.
- Candidates: cue expressions are arbitrary match counts; the cue tables are data.
- Segmentation: characters are those of one string; white space is the set of `str.isspace`.
- Split: reading the manifest, the inferred profiles and the report; the shuffle is an arbitrary permutation of a stratum's sorted ids.
- Allocation and Calibration: floating point is replaced by exact rationals and reals.
- Migration: the added column, its backfill and the final constraints; rows are taken with the text hash filled in.
- Migration downgrade: it drops the column and restores nothing.
- HTTP fetching, HTML, PDF and Markdown parsing, the model adapter, field validation and JSON decoding: foreign libraries, taken as arbitrary functions.
- API handlers, pages, authentication, tracing, logging, metrics and settings: no invariant of their own.
- `scripts/seed_corpus.py` and `scripts/load_test.py`: drivers; the seeder inserts documents without extract jobs on purpose.
