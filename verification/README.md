# Verification model of the document question-answering service

The service takes PDF uploads, extracts and chunks their text, embeds the chunks, and answers questions about them as a
stream of events; a script scores its retrieval. This project models the parts of it whose correctness depends on more
than one function, and proves what they promise. `dafny verify dfyconfig.toml` checks everything.

Code that updates rows, fields or loop variables in place appears as classes and methods with loops, each proved against
a specification function or predicate; the properties of whole runs are lemmas about those.

- **Retrieval metrics** (`PassageMatching`, `RetrievalMetrics`). A recursive augmenting-path search tries each retrieved
  passage once. The proof carries a certificate: a set of gold passages that no alternating path leaves. It shows the
  matching to be maximum for every prefix of the ranking, hence the gain to be the largest possible.
- **Quota ledger** (`QuotaLedger`, `QuotaStore`, `QuotaLaws`, `QuotaProperties`, `QuotaExamples`). Reservations, commits,
  releases, answers, deletions and recovery over rows and counters. Limits are measured on the rows, so they hold
  whatever the counters say; counters are exact while transactions are atomic. `QuotaLaws` says what each transaction
  does in terms of rows and numbers.
- **Upload protocol** (`UploadProtocol`, `UploadProgress`, `DocumentHandlers`). Handlers, recovery and orphan
  reconciliation interleave over a database and an object store that share no transaction.
- **Locks** (`LockOrder`). Transactions as sequences of row locks, with deadlock freedom and termination.
- **Job queue** (`JobQueue`, `QueueLaws`, `JobStore`, `JobRuns`, `JobHistory`, `RetryBackoff`). Leases, attempts and
  fencing over whole runs. `QueueLaws` says what each statement does to the rows as they were before it.
- **Chunks** (`Words`, `ChunkUnits`, `ParagraphLaws`, `ChunkPacking`, `Chunker`, `ChunkLaws`, `PageAttribution`).
  Paragraphs, overlapping windows, greedy packing, absolute offsets and page ranges. The laws say in terms of characters
  and word counts where paragraphs and chunks end.
- **Result stream** (`ProcessStream`, `Processor`, `StreamRoundTrip`, `StreamExamples`). What the processor sends, what
  the worker accepts, and the way from page texts to stored rows.
- **Answer stream** (`EventStream`, `AnswerStream`, `AnswerPage`, `AnswerRoundTrip`, `AnswerCoding`). Server-sent events,
  a subset of sections 9.2.5 and 9.2.6 of the WHATWG HTML standard, written by the API and taken apart by the page.
- **Lists and limits** (`Pagination`, `RateLimits`).

`Strings`, `Options` and `Cardinality` hold what several models share.

## What the proofs bring to light

- `AllowRate` does not look at the limit when it opens a new window, so a limit of zero still admits one request per
  window (`RateLimits.NoLimitAdmitsOne`); the bound is max(limit, 1) (`RateLimits.WindowBound`). The two callers pass
  10 and 100 (`api/documents.go:121` and `481`), so it does not show. The packing loop compares after closing a chunk,
  so one chunk is always allowed (`ChunkPacking.Pack`).
- A commit that names a reservation of an owner who comes first could deadlock with a recovery
  (`LockOrder.ForeignReservationDeadlocks`); the handler never names one.
- The extractor's byte limit counts page texts, the worker's counts the text joined with blank lines. Pages exactly at
  the first limit can be refused for good by the second (`StreamExamples.TextDoesNotFit`); with room for the separators
  they are not (`StreamRoundTrip.TextFits`).
- A processor that is shutting down closes the stream as if it were complete. The worker sees an incomplete result,
  which is a permanent failure, while a failed embedding and a call that ended are tried again. A document within the
  worker's limits fails for good if and only if the first batch that does not go out finds the processor shutting down
  (`StreamRoundTrip.StopsDecide`); `StreamExamples.ShutDownFailsForGood` is the shortest one.
- The API writes a saved question without a `history` key around it, and the page looks for that key: the saved question
  never reaches the page's state from the stream (`AnswerRoundTrip.ShownIffSaved`).
- `DeleteOwnedWithUsage` reads the document before it locks and does not check that a row went. Limits hold all the same
  (`QuotaProperties.StepSafe`), but the counters drift exactly when the owner still has documents
  (`QuotaProperties.LateDeleteDrifts`), which two uploads and two deletions reach (`QuotaExamples.DriftIsReachable`).
- A commit keeps the counters exact only because the handler passes the same size twice
  (`QuotaProperties.CommitExactIffSameSize`).

## Model

| member | source | states |
|---|---|---|
| PassageMatching.SimilarityLaws | scripts/rag_eval_metrics.py:24-27 | Jaccard similarity is symmetric, lies in [0,1], and is 1 exactly for equal non-empty token sets |
| PassageMatching.Candidates | scripts/rag_eval_metrics.py:52 | exactly the gold indices that reach the threshold, in ascending order |
| PassageMatching.CandidatesByCount | scripts/rag_eval_metrics.py:24-27 | at a threshold p/q above zero a gold passage is a candidate if and only if both token sets are non-empty and q times the shared tokens are at least p times all tokens of the two |
| PassageMatching.HalfIsShared | scripts/rag_eval_metrics.py:24-52 | at the threshold one half: if and only if at least as many tokens are shared as belong to only one of the two |
| PassageMatching.EdgesByCount | scripts/rag_eval_metrics.py:44-52 | an edge joins the first passage of its tokens with a gold passage that shares enough of them, by the same count |
| PassageMatching.EdgesOfFirst | scripts/rag_eval_metrics.py:44-52 | a repeated token set gets no edges; every other passage gets the candidates of its tokens |
| PassageMatching.BuildEdges | scripts/rag_eval_metrics.py:44-52 | the edge lists of all retrieved passages, for any threshold |
| PassageMatching.CertifiedIsMaximum | scripts/rag_eval_metrics.py:42-68 | a matching whose unmatched passages reach only a closed set of gold passages is at least as large as any other matching of the same passages |
| PassageMatching.CertifiedCoversMost | scripts/rag_eval_metrics.py:42-68 | such a matching covers as many of its passages as any matching can |
| PassageMatching.Matcher.Augment | scripts/rag_eval_metrics.py:55-64 | the recursive search: success adds the passage and keeps every matched passage matched, through visited and dead gold passages untouched; failure changes nothing and its visited set is closed; a passage that reaches only dead gold passages is never matched |
| PassageMatching.TakeFree | scripts/rag_eval_metrics.py:60-63 | taking a free gold passage is a legal rerouting |
| PassageMatching.TakeOver | scripts/rag_eval_metrics.py:60-63 | taking over a gold passage whose holder found another one is a legal rerouting |
| PassageMatching.KeepCertificate | scripts/rag_eval_metrics.py:66-67 | a success leaves the dead set closed and the matched ranks below it unchanged: later augmentations never open an alternating path |
| PassageMatching.AbsorbVisited | scripts/rag_eval_metrics.py:66-67 | a failure extends the dead set by what it visited |
| PassageMatching.MatchedPassages | scripts/rag_eval_metrics.py:42-68 | the result is one-to-one along edges and, for every n, covers as many of the first n retrieved passages as any matching: maximum, and at the earliest ranks, although each passage is tried once |
| PassageMatching.Invert | scripts/rag_eval_metrics.py:68 | turning the map around keeps every pair |
| RetrievalMetrics.DistinctPassages | scripts/rag_eval_metrics.py:30-39 | the first passage of every token set, in order |
| RetrievalMetrics.FirstOccurrencesGrow | scripts/rag_eval_metrics.py:30-39 | passages that come later do not move or remove those that were kept |
| RetrievalMetrics.GainAdds | scripts/rag_eval_metrics.py:83 | one more matched rank adds exactly its weight |
| RetrievalMetrics.EarlierRanksGainMore | scripts/rag_eval_metrics.py:83 | rank sets that are no smaller on every prefix have no smaller discounted gain, for any weights that are never negative and never increase |
| RetrievalMetrics.GreedyBasisGainsMost | scripts/rag_eval_metrics.py:76-84 | no matching of the same graph has a larger discounted gain than the matched ranks |
| RetrievalMetrics.GainBounds | scripts/rag_eval_metrics.py:83-90 | the gain lies between zero and the ideal gain, which is positive for positive weights unless nothing could match |
| RetrievalMetrics.FirstMatched | scripts/rag_eval_metrics.py:77-82 | the first matched rank is the first passage with any edge |
| RetrievalMetrics.ReciprocalRank | scripts/rag_eval_metrics.py:82 | one over the one-based rank of the first passage with any edge, and zero if there is none |
| RetrievalMetrics.HarmonicMean | scripts/rag_eval_metrics.py:79-81 | the harmonic mean of m/R and m/G is 2m/(R+G) |
| RetrievalMetrics.Scores | scripts/rag_eval_metrics.py:78-92 | precision, recall, F1 and nDCG are the proportions they stand for, zero over nothing, and lie in [0,1] |
| RetrievalMetrics.BestMatching | scripts/rag_eval_metrics.py:76-84 | the matched ranks carry a largest matching and no matching gains more |
| RetrievalMetrics.GraphMetrics | scripts/rag_eval_metrics.py:76-92 | all scores in terms of the graph alone: size of a largest matching, largest gain, first passage with an edge |
| RetrievalMetrics.PassageMetrics | scripts/rag_eval_metrics.py:71-92 | nothing is scored without gold passages; otherwise the scores of the graph of the distinct gold passages |
| QuotaLedger.RecoverTotals | api/database.go:439-501 | recovery never raises what the rows add up to |
| QuotaLedger.DocumentRemoved | api/database.go:537-559 | a removed document takes exactly its size and one document off its owner's totals |
| QuotaLedger.UploadSettled | api/database.go:265-293 | a settled reservation takes exactly its bytes and one document off its owner's reserved totals |
| QuotaStore.Store.LockOwnerUsage | api/database.go:423-431 | inserts an empty counter row if there is none |
| QuotaStore.Store.RecoverOwner | api/database.go:450-497 | one round of the recovery loop: expired reservations released, expired answers expired, counters recounted |
| QuotaStore.Store.RecoverExpiredReservations | api/database.go:433-501 | recovery of a list of owners, one after the other |
| QuotaStore.Store.AdmitReservation | api/database.go:325-338 | the quota check and the reservation, leaving no trace unless they succeed |
| QuotaStore.Store.Reserve | api/database.go:320-340 | lock, recover, check, reserve; any failure restores every row |
| QuotaStore.Store.CreateOwnedAndCommitUpload | api/database.go:265-293 | the document row, the counters and the settled reservation appear together or not at all |
| QuotaStore.Store.Release | api/database.go:378-399 | a live reservation is released once and its counters lowered, clamped at zero; a settled one stays as it is |
| QuotaStore.Store.Begin | api/database.go:401-421 | admission of an answer after recovery; what is admitted is said by QuotaLaws.BeginIff |
| QuotaStore.Store.End | api/database.go:503-524 | an active answer ends once and a settled one stays as it is; its effect in numbers is QuotaLaws.EndEffect |
| QuotaStore.Store.DeleteOwnedWithUsage | api/database.go:537-559 | the row goes and the counters drop by its size, clamped at zero |
| QuotaStore.SumRows | api/database.go:479-492 | the aggregate query adds every row once |
| QuotaStore.CountRows | api/database.go:479-492 | the recount agrees with the specification of the totals |
| QuotaLaws.RecoverUploads | api/database.go:457-465 | recovery releases the live reservations of the owner that have expired by then, and changes no other row |
| QuotaLaws.RecoverAnswers | api/database.go:467-475 | it expires the active answers of the owner that have expired by then, and changes no other row |
| QuotaLaws.RecoverCounts | api/database.go:477-497 | afterwards the counters are the sums and counts of documents, unexpired reservations and unexpired answers |
| QuotaLaws.ReserveIff | api/database.go:320-340 | an upload is admitted if and only if its identifier is new and, with documents and unexpired reservations, it stays within 10 GiB and 1000 documents |
| QuotaLaws.ReserveRows | api/database.go:320-340 | a rejected upload changes nothing, an admitted one adds its live reservation to the recovered rows |
| QuotaLaws.BeginIff | api/database.go:401-421 | an answer is admitted if and only if its identifier is new and the owner has fewer than two unexpired ones |
| QuotaLaws.BeginRows | api/database.go:401-421 | a rejected answer changes nothing, an admitted one is active from then on |
| QuotaLaws.EndEffect | api/database.go:503-524 | the end of an active answer lowers the count of its owner's active answers by exactly one, leaves the row finished, and changes no other row and no other owner's totals |
| QuotaLaws.EndMakesRoom | api/database.go:401-524 | after the end of one of an owner's active answers, from rows within the limits, a fresh answer is admitted at any time |
| QuotaLaws.ReleaseEffect | api/database.go:378-399 | the release of a live reservation lowers its owner's reserved totals by exactly its bytes and one document, and changes no other row |
| QuotaLaws.LateSettlement | api/database.go:378-524 | the release or end of what is already settled changes no row, and of what is unknown nothing at all |
| QuotaLaws.CommitIff | api/database.go:265-293 | a commit succeeds if and only if it names a live reservation of this owner and document and the document is new; then the row is there and the reservation committed, otherwise nothing changes |
| QuotaLaws.DeleteEffect | api/database.go:537-559 | a deletion finds exactly the owner's documents and takes exactly the row, its size and one document away |
| QuotaProperties.StepSafe | api/database.go:320-340 | every transaction keeps every owner's rows within the limits, with arbitrary counters and with deletions split in two |
| QuotaProperties.RunSafe | api/database.go:320-524 | over every run of transactions, late deletions and counter drift, documents plus live reservations stay within 10 GiB and 1000, and active answers within 2 |
| QuotaProperties.ReserveSafe | api/database.go:320-340 | an upload is admitted only within the limits, measured on the rows |
| QuotaProperties.BeginSafe | api/database.go:401-421 | an answer is admitted only within the limit, measured on the rows |
| QuotaProperties.CommitTotals | api/database.go:265-293 | a commit moves exactly the reserved amount to the committed totals when the sizes agree |
| QuotaProperties.StepExact | api/database.go:265-559 | every atomic transaction keeps all five counters of every owner equal to the sums and counts over rows |
| QuotaProperties.RunExact | api/database.go:265-559 | over every run of atomic transactions the counters stay exact |
| QuotaProperties.ReleaseExact | api/database.go:378-399 | with exact counters the clamp of a release never bites |
| QuotaProperties.EndExact | api/database.go:503-524 | with exact counters the clamp at the end of an answer never bites |
| QuotaProperties.DeleteExact | api/database.go:537-559 | with exact counters the clamps of a deletion never bite |
| QuotaProperties.CommitExactIffSameSize | api/documents.go:125-159 | a commit keeps the counters exact if and only if it commits the size that was reserved |
| QuotaProperties.LateDeleteDrifts | api/database.go:540-556 | deleting a row that is already gone keeps the counters exact if and only if the owner has no documents left |
| QuotaExamples.DeletedTwiceDrifts | api/database.go:540-556 | two deletions of one document that both read it, while the owner keeps another one, leave exact counters wrong |
| QuotaExamples.DriftIsReachable | api/database.go:265-559 | that happens from empty tables: two uploads, then the first one deleted twice |
| QuotaProperties.RecoverIdempotent | api/database.go:439-501 | a second recovery at the same time changes nothing |
| QuotaProperties.RecoverNothing | api/database.go:439-501 | with nothing expired and exact counters recovery is the identity |
| QuotaProperties.RecoverEachRepairs | api/database.go:220-230 | start-up recovery makes any counters exact once it visits every owner that has rows or inexact counters |
| QuotaProperties.RunSettling | api/database.go:265-524 | over every run a reservation row stays, keeps its identity, and leaves `reserved` or `active` at most once |
| UploadProtocol.NextKeepsInv | api/documents.go:125-172 | every step of upload, delete, recovery and reconciliation keeps the protocol invariant under every interleaving |
| UploadProtocol.EveryRowHasItsObject | api/documents.go:142-172 | in every reachable state each document row has its stored object |
| UploadProtocol.TraceIsRun | api/documents.go:111-176 | whatever interleaves, the ledger goes through a run of transactions, each commit with the size that was reserved |
| UploadProtocol.EveryOwnerWithinLimits | api/documents.go:111-176 | in every reachable state every owner's rows are within the limits |
| UploadProtocol.UnreferencedForever | api/storage.go:240-245 | an existing object found unreferenced is never referenced again, so check-then-delete is safe |
| UploadProtocol.UnreferencedButUnlisted | api/storage.go:225-232 | without an object an unreferenced identifier can still be taken into use: reconciliation must start from what it listed |
| UploadProtocol.CommitKeepsInv | api/database.go:265-293 | a commit that succeeds finds the object in place |
| UploadProtocol.NextKeepsDead | api/database.go:342-353 | no transaction revives an identifier that has neither a row nor a live reservation |
| UploadProgress.UploadCompletes | api/documents.go:125-176 | an upload that the quota admits and nothing disturbs ends with its document row, its object and a committed reservation |
| UploadProgress.FailedUploadGivesBack | api/documents.go:131-141 | an upload whose write failed releases its reservation and leaves documents and objects as they were |
| UploadProgress.LateUploadUndone | api/documents.go:159-173 | an upload whose reservation was released before its commit removes its object again |
| UploadProgress.DeletionCompletes | api/documents.go:394-415 | a deletion removes the row and then the object |
| UploadProgress.OrphanCollected | api/storage.go:225-251 | reconciliation removes an object that has no row and no live reservation, and no other |
| DocumentHandlers.KeyRoundTrip | api/storage.go:236-240 | reconciliation reads back the identifier that the upload wrote into the key |
| DocumentHandlers.UploadKeyIsKeyOf | api/storage.go:236-240 | every key that reconciliation takes for an upload is the key of the identifier it reads there |
| DocumentHandlers.ReconcileOrphanedUploads | api/storage.go:225-251 | only objects last written at the cutoff or before, whose identifier has no document row and no live reservation, are removed, and the others keep their times; a finished pass has removed all of these |
| DocumentHandlers.Upload | api/documents.go:111-176 | all outcomes of an upload: rejected exactly by size, rate, quota or a failed reservation, and then rows and objects are as before and only the attempt is counted; failed exactly when the write or the commit fails or the reservation expired before the commit, and then which object and which reservation stay |
| DocumentHandlers.StoreReserved | api/documents.go:131-173 | row, committed reservation and object together; otherwise no row, the reservation released unless that fails, and the object gone unless a failed write left it or its clean-up failed |
| DocumentHandlers.Delete | api/documents.go:394-415 | the row goes first; a failed clean-up leaves an unreferenced object, never a row without one |
| LockOrder.OperationsOrdered | api/database.go:423-475 | every transaction takes usage rows in ascending owner order and reservations only under their own usage row |
| LockOrder.OperationTakes | api/database.go:265-475 | which rows each transaction locks: its owner's usage row and the reservations it settles, for a recovery those of every owner it visits, and no others |
| LockOrder.StepKeepsInv | api/database.go:423-475 | taking and releasing locks keeps the discipline |
| LockOrder.BeginKeepsInv | api/database.go:423-475 | so does a transaction that begins at any time |
| LockOrder.WaitsForward | api/database.go:265-271 | nobody waits for a reservation row, and whoever is waited for has gone strictly further |
| LockOrder.NoCycle | api/database.go:265-524 | the wait-for graph has no cycle |
| LockOrder.DeadlockFree | api/database.go:265-524 | while a transaction is unfinished, some transaction can step |
| LockOrder.StepDecreases | api/database.go:423-475 | each step leaves strictly fewer lock steps to do |
| LockOrder.AllFinish | api/database.go:265-524 | from every lock table that keeps the discipline there is a schedule that ends every transaction |
| LockOrder.EveryRunEnds | api/database.go:265-524 | every schedule is bounded by the lock steps that were left |
| LockOrder.ReachableNoCycle | api/database.go:265-524 | in every table that beginning and stepping transactions can reach, the wait-for graph has no cycle |
| LockOrder.ReachableProgress | api/database.go:265-524 | in every reachable table some transaction can step, and some schedule ends them all |
| LockOrder.ReachableRunsEnd | api/database.go:265-524 | from every reachable table, no schedule without new arrivals is longer than the lock steps that are left |
| LockOrder.ReachableExclusive | api/database.go:265-524 | in every reachable table no row is locked by two transactions, a locked reservation comes with its owner's usage row, and a transaction that is about to end holds exactly the rows of its operation |
| LockOrder.ReservationFirstDeadlocks | api/database.go:378-389 | taking the reservation before the usage row would break the discipline and can deadlock |
| LockOrder.ForeignReservationDeadlocks | api/database.go:265-275 | a commit keeps the discipline if and only if it names a reservation of its own owner; naming one of an owner who comes first lets it and a recovery wait for each other |
| JobStore.Store.FailExhausted | api/database.go:614-622 | every waiting row without an attempt left becomes failed and loses its lease; every other row is unchanged |
| JobStore.Store.Candidate | api/database.go:623-640 | the first claimable unlocked row in (due time, creation time, id) order, and none only if none is claimable |
| JobStore.Store.ClaimNext | api/database.go:610-655 | none is picked if and only if no unlocked row with an attempt left is queued and due or has an expired lease; the picked one is the first of these by due time, creation time and id, and is leased for one attempt more; of the others exactly the waiting rows without an attempt left become failed |
| JobStore.Store.RenewLease | api/database.go:672-683 | only the holder of an unexpired lease extends it |
| JobStore.Store.RetryLater | api/database.go:685-696 | only the holder of an unexpired lease queues the job again |
| JobStore.Store.CompleteJob | api/database.go:698-719 | only the holder of an unexpired lease stores text and chunks, which replace all earlier chunks |
| JobStore.Store.FailJob | api/database.go:721-732 | only the holder of an unexpired lease fails the job |
| JobStore.Store.RetryByOwner | api/database.go:593-608 | a failed job of the owner starts over unless the failure is permanent |
| QueueLaws.ClaimIsLawful | api/database.go:610-655 | a claim as JobRuns uses it obeys the same law as ClaimNext, said on the table before it |
| QueueLaws.RenewLaw | api/database.go:672-683 | a renewal succeeds if and only if the token holds an unexpired lease, which then lasts exactly the duration from now; no other row changes |
| QueueLaws.RetryLaw | api/database.go:685-696 | a retry under the lease makes the row wait from exactly the given time on, without a token |
| QueueLaws.CompleteLaw | api/database.go:698-719 | a completion under the lease stores text, pages and exactly the given chunks |
| QueueLaws.FailLaw | api/database.go:721-732 | a failure under the lease leaves the row failed with the given kind and the chunks as they were |
| QueueLaws.OwnerRetryLaw | api/database.go:593-608 | an owner's retry works exactly on the owner's failed rows that are not failed for good, and makes them claimable at any time with all attempts |
| QueueLaws.CreateLaw | api/documents.go:148-159 | a new job is claimable at any time |
| QueueLaws.DeleteLaw | api/database.go:537-559 | a deletion finds exactly the owner's row and removes it with its chunks |
| JobStore.Store.MaintainLease | api/worker.go:240-256 | the lease is renewed until a renewal gets no answer or comes too late; then the row still bears the claim |
| JobStore.Store.ProcessNext | api/worker.go:159-206 | one worker pass: it finds nothing exactly when no row could be claimed; it is done exactly when every renewal and the settlement are answered and in time, and then the row shows the result, the failure, or the next attempt by the worker's clock; otherwise the first call that is not ends it, and the row still bears the claim |
| JobRuns.Choose | api/worker.go:191-205 | retried if and only if the error is temporary and an attempt is left, failed for good if and only if it is permanent, failed for the owner to retry otherwise |
| JobRuns.StepKeepsInv | api/database.go:593-732 | every step of workers, owners and the store keeps the state machine and the fence |
| JobRuns.ReachableInv | api/database.go:593-732 | the invariant holds in every reachable state |
| JobRuns.OneHolder | api/database.go:672-732 | in every reachable state at most one token can act on a document: that of its latest claim, which has not settled |
| JobRuns.NoActAfterLaterClaim | api/database.go:610-655 | in every run, after a later claim nothing succeeds under an earlier token |
| JobRuns.SettledOnce | api/database.go:685-732 | in every run each token settles its claim at most once and does nothing afterwards |
| JobRuns.StoredContentIsFenced | api/database.go:698-719 | in every reachable state there is content exactly for completed documents, and it was submitted under the latest claim of that moment, not yet settled, before its lease ran out |
| JobRuns.ClaimsBounded | api/database.go:593-655 | a document is claimed at most maxAttempts times the owner's retries plus one, and every row obeys the state machine |
| JobHistory.AttemptsAreClaims | api/database.go:593-655 | in every reachable state the attempts of a row are its claims since its creation or its owner's last retry |
| JobHistory.NoEarlyFailure | api/database.go:610-655 | over every run a document fails only after maxAttempts claims since then, or because its processing broke for good |
| JobRuns.FinalIsAbsorbing | api/database.go:593-732 | completed and permanently failed rows change only by being deleted |
| Words.JoinedWords | document-processor/service.py:159 | text joined by white space has the words of both sides |
| Words.JoinWords | document-processor/service.py:147 | words joined by single spaces are found again |
| Words.PartWords | document-processor/service.py:148 | the words of a part of a text are the words found there |
| Words.IntervalWords | document-processor/service.py:141-148 | from the start of one word to the end of a later one lie exactly the words between |
| ChunkUnits.ParagraphEnd | document-processor/service.py:137 | the match of the paragraph pattern from a given character |
| ChunkUnits.Paragraphs | document-processor/service.py:137 | the paragraphs cover the text from its first to its last character with only white space between them |
| ChunkUnits.UniqueParagraphs | document-processor/service.py:137 | a text has only one such division |
| ParagraphLaws.GapIsEmptyLine | document-processor/service.py:137 | the gap between two paragraphs is white space that begins with a line end and holds another one |
| ParagraphLaws.NoEmptyLineInside | document-processor/service.py:137 | from its third character on no paragraph holds a line end that follows a character and is followed by white space with another line end |
| ParagraphLaws.OneParagraph | document-processor/service.py:137 | a text without two line ends separated only by white space is one paragraph |
| ParagraphLaws.UnitSeam | document-processor/service.py:139-150 | after a unit comes an empty line, or both are windows of one paragraph: the first has exactly TOKEN_CHUNK_SIZE words and the second starts TOKEN_CHUNK_OVERLAP words before its end |
| ChunkUnits.WindowCovers | document-processor/service.py:145-148 | a window holds exactly its words, and its offsets are those of its first and last word |
| ChunkUnits.CutWindows | document-processor/service.py:145-150 | exactly the windows of a long paragraph, linked by the overlap, the last one ending with the last word |
| ChunkUnits.SplitParagraph | document-processor/service.py:139-150 | a short paragraph stays whole and a long one becomes its windows |
| ChunkUnits.BuildUnits | document-processor/service.py:136-150 | the units of all paragraphs in order, covering every word of the text |
| ChunkPacking.GreedyIsGrouping | document-processor/service.py:155-170 | the greedy grouping keeps the limit when every unit does, and leaves no group empty |
| ChunkPacking.GreedyIsOptimal | document-processor/service.py:155-170 | no order-preserving grouping under the limit has fewer groups |
| ChunkPacking.Place | document-processor/service.py:155-170 | one round of the packing loop follows the greedy grouping, or stops because it has too many chunks |
| ChunkPacking.Pack | document-processor/service.py:151-177 | the chunks are those of the greedy grouping; the error comes exactly when it has more than max(1, MAX_CHUNKS) groups |
| Chunker.GroupContiguous | document-processor/service.py:157 | the units of a chunk are contiguous: a chunk never repeats words inside itself |
| Chunker.WindowsNeverMerged | document-processor/service.py:145-157 | whatever the overlap, no chunk holds two windows of one paragraph |
| Chunker.GroupCovers | document-processor/service.py:158-162 | a chunk's text holds exactly the words from its first unit to its last, at their offsets |
| Chunker.FitsByGreedy | document-processor/service.py:163-164 | the greedy grouping decides whether any grouping fits, and none is smaller |
| Chunker.UniqueChunking | document-processor/service.py:135-177 | the pages of a document determine its list of chunks |
| Chunker.ChunkSeam | document-processor/service.py:145-157 | a chunk has exactly TOKEN_CHUNK_SIZE words and shares the last TOKEN_CHUNK_OVERLAP with the next one, unless an empty line follows it |
| Chunker.PlainText | document-processor/service.py:135-177 | a text without empty lines is one chunk with the whole text if it has at most TOKEN_CHUNK_SIZE words, and otherwise full windows that share exactly the overlap |
| ChunkLaws.UnitText | document-processor/service.py:141-148 | a unit is a piece of the text as it stands, or words with single spaces between them and nothing else |
| ChunkLaws.ChunkIsSlice | document-processor/service.py:157-160 | where paragraphs are short enough and lie exactly two line ends apart, a chunk is the text between its offsets |
| ChunkLaws.GreedyIsFull | document-processor/service.py:155-157 | a group ends only before a unit that would make it too long |
| ChunkLaws.ChunkIsFull | document-processor/service.py:155-170 | the next chunk begins with a unit whose words would not have fitted into this one |
| Chunker.MakeChunks | document-processor/service.py:135-177 | the exact chunks of a stripped text: words in order without gaps, at most TOKEN_CHUNK_SIZE words each, consecutive chunks sharing no word or exactly the overlap, as few as possible, pages by the page table; the error exactly when the fewest are too many; a text without empty lines is one chunk with the whole text, or full windows that share exactly the overlap |
| Chunker.FaithfulOffsets | document-processor/service.py:162 | the words of a chunk are the words of text[start:end], which begins and ends with a character |
| Chunker.ChunksAdvance | document-processor/service.py:162-165 | starts and ends strictly increase |
| Chunker.EveryWordCovered | document-processor/service.py:171-177 | every word of the document is in some chunk |
| Chunker.ChunkPages | document-processor/service.py:161-162 | a chunk's pages are those of its first and last character, and the fallback to page 1 is not needed |
| PageAttribution.PageRanges | document-processor/service.py:281-285 | the shifted and clamped offsets of every page |
| PageAttribution.StripKeepsWords | document-processor/service.py:278-280 | stripping takes only white space away: all words stay, and the text begins and ends with a character |
| PageAttribution.FindPage | document-processor/service.py:278-285 | every character that is not white space lies in a page |
| PageAttribution.CoveredBetween | document-processor/service.py:161 | the pages that an interval overlaps lie between the pages of its ends |
| PageAttribution.Attribution | document-processor/service.py:161-162 | through join, strip and shift the page range is exactly from the page of the first character to the page of the last, within 1 and the page count |
| ProcessStream.ReadBatch | api/worker.go:330-360 | a batch is read exactly when every chunk has the next index, the right vector length, text and pages, and there are not too many |
| ProcessStream.ProcessDocument | api/worker.go:300-368 | a stream is accepted if and only if it ends normally and is complete, and then the rows are its chunks in order, numbered from 0, each with 768 numbers, 1 to 100000 bytes and pages of the document, at most 10000 of them; when the failure is temporary |
| Processor.EmbedBatch | document-processor/service.py:180-192 | vectors are used exactly when there is one of the right length per text |
| Processor.SendBatch | document-processor/service.py:305-332 | one numbered batch with absolute indexes and the vectors of its own texts |
| Processor.SendBatches | document-processor/service.py:295-332 | metadata and batches in order, for any batch size; the first batch that finds the processor shutting down or the call over, or cannot be embedded, ends the stream, and nothing else does |
| Processor.CheckPages | document-processor/service.py:89-101 | the extraction limits, counted page by page |
| Processor.Process | document-processor/service.py:271-332 | refused exactly when pages are too large, hold no text or make too many chunks; otherwise the events carry the chunks of the text |
| StreamRoundTrip.SentStreamComplete | api/worker.go:300-368 | what was sent to the end is accepted if and only if the document keeps the worker's limits |
| StreamRoundTrip.PrefixIncomplete | api/worker.go:362-367 | every proper prefix of what the processor sends is rejected |
| StreamRoundTrip.Ingest | api/worker.go:296-368 | from page texts to rows, for a document whose metadata is allowed: stored if and only if no batch stops and no chunk is too long; failed for good if and only if a chunk that is too long was sent or the first batch that stops found the processor shutting down; otherwise tried again; what is stored are the chunks of the document |
| StreamRoundTrip.StopsDecide | api/worker.go:330-376 | within the worker's limits only the first batch that stops decides |
| StreamRoundTrip.TextFits | document-processor/service.py:94-101 | pages within the byte limit with room for the separators give a text within it |
| StreamExamples.TextDoesNotFit | api/worker.go:316 | two pages of ten-letter words that the extractor lets through, with chunks within every limit of the worker, and a text that it refuses |
| StreamExamples.PagesExist | document-processor/service.py:94-101 | there are such pages |
| StreamExamples.ShutDownFailsForGood | document-processor/service.py:305-306 | a document of one letter, not refused, fails for good if the processor is shutting down before its first batch, is tried again if the call is over by then, and is otherwise stored if it can be embedded |
| EventStream.SplitMore | frontend/src/hooks/use-answer-stream.ts:90-93 | a piece left open can be split again with the text that follows: where the network cuts makes no difference, for any text |
| EventStream.SplitLoses | frontend/src/hooks/use-answer-stream.ts:91 | the pieces joined by blank lines are the text again, and no piece holds a blank line |
| EventStream.BlockFirst | frontend/src/hooks/use-answer-stream.ts:91 | a block without blank lines is found again before whatever follows |
| EventStream.FieldIsFirst | frontend/src/hooks/use-answer-stream.ts:69-70 | a field is what follows its name in the first line that starts with it, and missing only if no line does |
| EventStream.FieldsRoundTrip | frontend/src/hooks/use-answer-stream.ts:69-70 | single-line kind and data are read back from a written block, also with a line end after it |
| EventStream.CutBlock | frontend/src/hooks/use-answer-stream.ts:69-71 | a block cut short shows no data or a proper prefix of it |
| AnswerStream.Response.WriteSSE | api/documents.go:620-625 | the text of one event |
| AnswerStream.Ask | api/documents.go:539-605 | what is written and what is saved, for every end of the model's stream; an answer is saved if and only if the stream closed, some event said done, the request was still wanted and saving works, and it is the concatenated tokens |
| AnswerStream.AnswerIsConcat | api/documents.go:539-575 | the answer is the texts of the token events, in order |
| AnswerStream.Finish | api/documents.go:543-604 | the events after the tokens, in every case |
| AnswerPage.Reader.ProcessEvent | frontend/src/hooks/use-answer-stream.ts:68-81 | the effect of one block on the page, with the second parse of a saved question's sources |
| AnswerPage.Reader.Read | frontend/src/hooks/use-answer-stream.ts:83-97 | for every division into pieces, the page ends up as if the whole text had been split at once, up to a payload that cannot be parsed; the outcome shown |
| AnswerCoding.EncodingExists | api/documents.go:620-625 | what the round trip asks of encoding and decoding can be met |
| AnswerRoundTrip.WrittenBlocks | api/documents.go:620-625 | the blocks found in written events are exactly the blocks written, in order, whatever single-line payloads they carry |
| AnswerRoundTrip.BlocksRead | frontend/src/hooks/use-answer-stream.ts:68-93 | reading the blocks has the effect of the messages in order |
| AnswerRoundTrip.CutText | frontend/src/hooks/use-answer-stream.ts:83-94 | wherever the text is cut off, the page ends up as after some of the messages, or finds the text broken |
| AnswerRoundTrip.WholeAnswer | api/documents.go:543-605 | the whole text shows the concatenated tokens, and success, the reported failure or an unexpected end as the API meant |
| AnswerRoundTrip.ShownIffSaved | api/documents.go:581-605 | success is shown only if the answer was saved, with the same text and sources, however much of the text arrived; and always if all of it arrived and the answer was saved |
| AnswerRoundTrip.AskAndRead | api/documents.go:539-605 | a question asked and its answer read through any network: the same as one contract |
| Pagination.PageLimit | api/documents.go:181-187 | the page size is always between 1 and 100 |
| Pagination.FirstOfIsPage | api/database.go:307-318 | a page is the owner's matching rows below the cursor, newest first by (created_at, id), and what is missing is older than all of a full page |
| Pagination.ListOwnedPage | api/database.go:307-318 | the first rows of the selection in descending (created_at, id) order |
| Pagination.List | api/documents.go:203-226 | one page of the owner's matching rows; there is a cursor exactly when rows are left over, and it is the key of the last item |
| Pagination.Walk | api/documents.go:188-226 | over tables that change between requests: only the owner's matching rows, strictly from newer to older, and a finished walk has listed every matching row that was there throughout; on a fixed table as many requests as matching rows are enough |
| Pagination.NoneTwice | api/documents.go:188-226 | no document is listed twice |
| RetryBackoff.RetryDelay | api/worker.go:257-269 | min(max, initial * 2^(attempt-1)) in 64-bit arithmetic without overflow |
| RetryBackoff.DelayDoubles | api/worker.go:257-269 | the first delay is the initial one and each later one twice the one before, up to the maximum |
| RetryBackoff.DelayMonotone | api/worker.go:257-269 | later attempts never wait less, and always between initial and max |
| RateLimits.BucketStore.AllowRate | api/database.go:526-535 | admits exactly while fewer than the limit were admitted in the aligned window since the beginning, except that a new window always admits one |
| RateLimits.WindowStartLaws | api/database.go:526-535 | a window starts at a multiple of its length, no later than any of its times, and the next one starts exactly one length later |
| RateLimits.WindowBound | api/database.go:526-535 | no aligned window admits more than max(limit, 1) |
| RateLimits.DecidedAfter | api/database.go:526-535 | one more call, decided as AllowRate decides, keeps every call of the history decided so; AllowRate guarantees it for every key |
| RateLimits.NoLimitAdmitsOne | api/database.go:526-535 | a limit of zero admits the first call of a window |
| RateLimits.TwiceTheLimit | api/database.go:526-535 | no interval of one window admits more than twice that, in whatever order clocks are read |
| RateLimits.Recent | api/admission.go:92-98 | the entries from the first one that is recent enough |
| RateLimits.AdmissionController.ReserveUpload | api/admission.go:37-50 | one upload request: admitted only within 10 GiB, 1000 documents and 10 uploads in the last hour, and rejected only because one of these is reached |
| RateLimits.AdmissionController.ReleaseUpload | api/admission.go:52-58 | bytes and documents drop, unclamped |
| RateLimits.AdmissionController.BeginAnswer | api/admission.go:60-72 | one answer request: admitted only with fewer than two active and fewer than 100 in the last day, and rejected only otherwise |
| RateLimits.AdmissionController.EndAnswer | api/admission.go:74-81 | active answers drop, not below zero |
| RateLimits.PrunedCount | api/admission.go:92-98 | what pruning keeps is exactly the admissions since then, of all that were ever made |
| RateLimits.AdmittedByHistory | api/admission.go:37-72 | under a clock that does not go back, every decision of a run is the one that the complete history asks for |
| RateLimits.NoWindowOverLimit | api/admission.go:37-72 | no interval of one window holds more than the limit |

## Left out

- Floating point: scores are exact reals, similarity an exact quotient, and the discount 1/log2(rank+1) any function that is never negative and never increases.
- Tokenization: a passage is the set of its tokens; the token pattern and lower-casing are not modelled.
- PDF parsing, embeddings, vector search, gRPC and HTTP: page texts, vectors and failures are inputs. Embedding, and how things stand before a batch, are functions of the batch.
- JSON, base64 and UTF-8: JSON is a pair of functions assumed to be inverse and to fail on cut-off objects (`AnswerCoding` shows that there is one, which is not JSON); cursors are values; streams are characters, and byte lengths are computed from code points.
- Rendering of embeddings as text, identifiers of chunk rows and creation times of chunks: the rows carry the vector and the index instead.
- The fallbacks `CreateOwned`, `CommitUpload`, `Create`, `Delete` and `DeleteOwned`, which the Postgres store does not take: they do not keep the counters exact.
- `api/auth_limiter.go`, authentication, cookies, range requests, metrics, environment parsing, migrations and user interface components: single-branch code or plumbing.
- Rejections before the size check of an upload (missing file, no PDF header) and an error of the rate query: they change no row and no object.
- Lost acknowledgements: an error from a commit means that the transaction was rolled back.
- UploadProtocol.NextKeepsInv: identifiers of uploads are fresh and used for document, reservation and object alike, as the handler does; it does not cover identifiers reused after a deletion.
- LockOrder.OperationsOrdered: does not model locks on document rows, and takes a reservation to belong to the owner whose usage row is locked, as the handler's commit does (`api/documents.go:118-159`).
- JobStore.Store.Candidate: rows locked by other transactions are a set given by the caller; the choice is made over a set of rows instead of an index scan.
- JobStore.Store.ProcessNext: the pass runs without other transactions in between; interleavings are the subject of JobRuns. A call that gets no answer has changed nothing, and the processing that a failed renewal cancels is not followed further.
- JobRuns.StepKeepsInv: a worker that crashes takes no more steps; tokens are fresh. Database times may be any numbers, also out of order.
- RateLimits.AdmissionController.ReserveUpload: an owner's record is a value in a map and not a shared object; the mutex makes every method atomic. Time comes from the caller.
- Pagination.Walk: the search pattern is any predicate on file names, and the columns that pages show but that may change between requests are not part of a row.
- AnswerPage.Reader.Read: the text decoder and the abort button are not modelled.
- StreamRoundTrip.Ingest: all that was sent before a call ended reaches the worker.
- Processor.Process: the capacity slots around a request are not modelled.
- Words.Blank and AnswerPage.Space list the white space of Python's `str.split` and of JavaScript's `trim`.
