# Verified model of the multi-tenant RAG backend

This project models the parts of the backend that keep state across steps, and proves what those parts promise
together rather than one call at a time. It is checked with

    dafny verify dfyconfig.toml

| file | models |
|---|---|
| `Collections.dfy` | facts about sequences, and Redis' LREM |
| `IngestionQueue.dfy`, `QueueTheorems.dfy`, `ReclaimPass.dfy`, `StatusLifecycle.dfy`, `StatusOutcome.dfy`, `LateAck.dfy` | the leased ingestion queue as a state machine: one step is one Redis command of one of any number of workers, every command may raise, every worker may stop anywhere |
| `RedisQueue.dfy` | the queue functions as methods on the Redis state, and their agreement with that state machine |
| `ThinkFilter.dfy` | the streaming filter for `<think>` blocks against the batch filter |
| `ResponseCache.dfy` | the epoch-versioned response cache under concurrent chats and document changes |
| `Filenames.dfy`, `DocumentTables.dfy`, `IngestSaga.dfy`, `DocumentService.dfy` | accepted filenames, the `documents` table, the vector collection, the ingestion saga with its interleavings, and sequences of ingest, delete and clear |
| `AgentGraph.dfy` | the corrective graph with its back edge |
| `Lockout.dfy`, `RateLimit.dfy` | the two time-based limiters over unbounded timed runs |
| `SqlLike.dfy`, `Visibility.dfy` | PostgreSQL's LIKE and the two encodings of role visibility |
| `ThreadScope.dfy` | thread ids, history scopes and cache keys built from compact JSON (sections 5 and 7 of RFC 8259) |

Concurrent code is a state machine over values: a state, an `Action` datatype, `Enabled`, `Next`, and `ValidRun`/`Exec` for
runs of any length; an inductive invariant carries each theorem about all runs. Code that updates state in place is a class
whose methods are proved against functions of the old state, and the theorems are about those functions.

Where the code and its documentation, or two parts of the code, disagree, the model follows the code:

* `README.md` and `ARCHITECTURE.md` promise that a document change invalidates all cached answers at once. The first bump of a
  tenant does not: a missing epoch reads as 1, and the first INCR also gives 1 (`FirstBumpIsInvisible`). `StaleOnlyAtEpochOne`
  says exactly when a stale answer can be served.
* A clear swallows the error of the row deletion and deletes the vectors all the same (`ClearKeepsAgreementIff`).
* A replacement whose clean-up fails, and a delete or clear whose vectors cannot be deleted, change the stores without bumping
  the cache epoch (`UnbumpedChangeIff` has the exact cases).
* The unlocked quota pre-check makes no allowance for a replaced file, so it refuses replacements that the row transaction
  would accept (`PreCheckRefusesReplacement` says which, `OnlyDocumentIsStuck` is an instance).
* A late acknowledgement of an expired attempt deletes the payload that the next attempt needs, and a completed task becomes
  failed. A final status can change exactly for tasks that were requeued (`FinalUnlessRequeued`).
* A worker that is interrupted before it writes a final status, by cancellation or by an exception such as a failing payload
  read, still acknowledges: the payload is gone and the status says processing for good (`InterruptedAck`;
  `AcknowledgedIsFinal` is exact).
* `decide_to_generate` knows one greeting less than `retrieve_node` (`ROUTER_GREETINGS`), without effect on the path:
  `BoundedCorrection` has the exact condition for a rewrite, and the greetings of the router are not part of it.

Roles are `admin`, `analyst` and `viewer`: `TokenData` (`app/core/auth.py:23-26`) rejects any other, so the theorems on
visibility cover every role that a request can carry.

## Model

| member | source | states |
|---|---|---|
| QueueTheorems.JobConservation | app/redis_client.py:138-225 | in every run with any number of workers that raise or stop anywhere, queue and processing list hold no duplicate, a task has at most one live copy over all its attempts and places, and its newest attempt has one unless it was acknowledged or lost |
| QueueTheorems.NoLossWithoutStops | app/redis_client.py:171-206 | in a run in which no process stops or raises between the pop and the lease, between ZREM and RPUSH, or while it works without a lease, every unacknowledged task keeps a live copy |
| QueueTheorems.LostExactlyByStops | app/redis_client.py:171-204 | in every run, a newest attempt that was not acknowledged is without any copy if and only if some process stopped with this job inside a window |
| QueueTheorems.StopIsFatal | app/redis_client.py:171-204 | after a stop inside one of these windows no attempt of the task ever has a copy in Redis or at a process again, in any continuation |
| QueueTheorems.OneRequeuePerAttempt | app/redis_client.py:196-205 | each (task, attempt) enters the queue once in any run, in increasing order and without gaps, even with concurrent reclaimers on stale snapshots, and one process at most works on it |
| QueueTheorems.LeaseCoverage | app/redis_client.py:171-185 | every leased job is in the processing list, which has no duplicates, and is not queued |
| ReclaimPass.PassLeavesNone | app/redis_client.py:193-207 | a reclaiming pass that gets to its end leaves none of the leases that it found expired, whatever other workers and reclaimers do meanwhile, also after losing an entry to another reclaimer |
| ReclaimPass.SeenStep | app/redis_client.py:171-204 | once leased, a job never comes back to the queue or to a worker without a lease, and never gets another lease |
| QueueTheorems.PayloadUntilFirstAck | app/redis_client.py:156-225 | a payload is stored exactly while its task is enqueued, its day in Redis is not over and none of its attempts, old ones included, was acknowledged |
| QueueTheorems.AcknowledgedIsGone | app/redis_client.py:216-225 | in every run an acknowledged job is in no list and has no lease, and the payload of its task is not stored |
| QueueTheorems.LogRecordsPushes | app/redis_client.py:158-204 | the history that the theorems speak about is faithful: it grows by exactly the job that a step adds to the Redis queue |
| QueueTheorems.LastInFirstOut | app/redis_client.py:158-175 | a job pushed just before a pop is the one that is popped, so the queue is not first in, first out, and it is put at the head of the processing list |
| QueueTheorems.InvConserves | app/redis_client.py:138-225 | the inductive invariant implies at most one copy per task and an accounted-for newest attempt |
| IngestionQueue.StepInv | app/redis_client.py:138-225 | every command, error and stop of any process keeps the ten-part invariant that ties queue, processing list, leases, payloads and control points together |
| IngestionQueue.RunInv | app/api/routes.py:471-512 | the invariant holds after every run of enqueuers, workers and reclaimers |
| IngestionQueue.InitInv | app/redis_client.py:34-37 | the empty Redis state satisfies the invariant |
| StatusLifecycle.StatusIsFinal | app/api/routes.py:471-504 | in every run, whatever stops, expires or is cancelled: a task that was never requeued is processed at most once, and its completed or failed status never changes again |
| LateAck.FinalUnlessRequeued | app/redis_client.py:193-225 | a run that changes the final status of a task requeued n times exists if and only if n is at least 1 |
| LateAck.CompletedThenFailed | app/redis_client.py:216-225 | for every n >= 1 a run: a late acknowledgement leaves the requeued attempt without payload, the status goes from completed to failed, and the task was requeued n times |
| StatusLifecycle.AttemptsProcessedOnce | app/api/routes.py:471-504 | in every run each attempt is processed at most once, no acknowledged attempt is worked on again, and a task is processed at most once more than it was requeued |
| StatusLifecycle.AcknowledgedIsFinal | app/api/routes.py:471-504 | in every run, an acknowledged task that was never requeued has a final status if and only if its worker was not interrupted, by cancellation or by an exception, before writing it; otherwise its status says processing, and uninterrupted it was processed or its payload expired first |
| StatusOutcome.OutcomeIsStored | app/api/routes.py:432-498 | in every run, a task that was never requeued is stored as completed if and only if its ingestion returned, and as failed if and only if its ingestion raised, its payload was missing or it could not be enqueued |
| StatusOutcome.AcknowledgedOutcome | app/api/routes.py:432-504 | an acknowledged, uninterrupted and never requeued task has exactly one of the two outcomes, and its stored status is completed or failed accordingly |
| StatusOutcome.FailedEnqueueIsFailed | app/api/routes.py:609-636 | after a failed enqueue the task is stored as failed in every continuation, and no job or payload of it ever exists |
| StatusOutcome.LastWriteWins | app/api/routes.py:432-498 | in every run the status of every task, requeued or not, is what was written last by anybody working on it |
| LateAck.InterruptedAck | app/api/routes.py:475-504 | a run in which a worker is interrupted before it writes a status, for one by a failing payload read: the acknowledgement in `finally` drops the payload and the task says processing for good |
| StatusLifecycle.StuckStays | app/api/routes.py:503-504 | no step of any process changes the status of an acknowledged first attempt that still says processing, unless the task is requeued |
| StatusLifecycle.NotRequeuedInTime | app/redis_client.py:182-200 | a task whose lease no reclaiming pass sees 900 seconds or more after its ZADD is never requeued, whatever happens to other tasks |
| StatusLifecycle.TrackedStep | app/api/routes.py:432-504 | every step of any process keeps the link between the status of a first attempt and where it is, and changes no final status of a task not yet requeued |
| StatusLifecycle.OnceStep | app/api/routes.py:471-504 | every step keeps that started jobs are not queued again, that nobody before the start of processing has a started job, and that nobody has an acknowledged one |
| RedisQueue.RedisClient.EnqueueIngestionJob | app/redis_client.py:138-159 | the new Redis state is that of the enqueue pipeline: payload stored, job of attempt 0 at the right end |
| RedisQueue.RedisClient.ZRangeByScore | app/redis_client.py:196 | returns each expired lease once and no other |
| RedisQueue.RedisClient.ReclaimStaleIngestionJobs | app/redis_client.py:193-207 | with every Redis call succeeding the state becomes that of `ReclaimedStore` for the expired leases and their number is returned; if the n-th command raises, exactly the commands before it took effect |
| RedisQueue.RedisClient.RequeueStale | app/redis_client.py:198-206 | the loop requeues each listed lease once, counts it, and stops with the first failing command |
| RedisQueue.RedisClient.ClaimIngestionJob | app/redis_client.py:162-190 | for every combination of failing calls: when the claim raises, returns nothing or returns the right-end job, with or without a lease of 900 seconds, depending on whether Redis is required |
| RedisQueue.RedisClient.AcknowledgeIngestionJob | app/redis_client.py:216-225 | the job leaves the processing list and the leases, and its task loses the payload |
| RedisQueue.ReclaimedStore | app/redis_client.py:198-205 | what a reclaiming pass amounts to: the queue grows by the expired jobs in order, one attempt later, exactly they leave leases and processing list, payloads stay |
| RedisQueue.ReclaimedWhole | app/redis_client.py:198-206 | a pass with enough successful commands does what the uninterrupted loop does |
| RedisQueue.InterruptedPass | app/redis_client.py:198-204 | a reclaiming pass that raises after n commands has requeued the first n / 3 jobs and removed the leases of the first (n + 2) / 3, so it strands at most one |
| RedisQueue.SoloReclaim | app/redis_client.py:193-207 | the interleaved protocol, run undisturbed, computes what the reclaiming loop computes |
| RedisQueue.SoloClaim | app/redis_client.py:162-190 | an undisturbed claim in the interleaved protocol leaves, for every combination of failing calls and both settings of REQUIRE_REDIS, the store and the job in hand that the method promises |
| RedisQueue.ReclaimedFirst | app/redis_client.py:171-204 | a worker that finds expired leases gets the last job it requeued, ahead of all that waited longer |
| Collections.RemoveFirstExact | app/redis_client.py:201 | on a list without duplicates LREM with count 1 removes exactly that entry |
| ThinkFilter.StreamEqualsBatch | app/api/routes.py:835-871 | for every way of splitting a text into tokens, shown fragments and final flush concatenate to the batch filter of the text |
| ThinkFilter.SplitIndependent | app/api/routes.py:835-871 | two token sequences with the same joined text show the same text |
| ThinkFilter.StreamExact | app/api/routes.py:844-865 | after every token, shown text and held buffer stand for the text so far under every continuation; the buffer has at most 6 characters outside a block and 7 inside |
| ThinkFilter.ShownIsFinal | app/api/routes.py:844-865 | shown text is a prefix of the result for every continuation of the stream |
| ThinkFilter.ScanExact | app/api/routes.py:846-865 | one pass over a buffer emits exactly what the batch filter shows of it, whatever text follows |
| ThinkFilter.FindIsFirst | app/api/routes.py:848-855 | `find` returns the first occurrence of the tag, and -1 only if there is none |
| ThinkFilter.HoldbackNeeded | app/api/routes.py:862-864 | of a visible text that ends in k characters of the opening tag none of these is shown if the tag completes, for every k up to 6, so a scanner may show none of them |
| ThinkFilter.HoldbackNeededInside | app/api/routes.py:847-851 | inside a block, forgetting part of k characters of the closing tag makes the scanner miss the end of the block, for every k up to 7 |
| ThinkFilter.ResultHasTagIff | app/api/routes.py:844-865 | for every text, the result contains the opening tag exactly when a visible run before a hidden block ends in a beginning of the tag and what is shown after it goes on with the rest |
| ThinkFilter.OneBlockHasTagIff | app/api/routes.py:844-865 | with one hidden block, the result is the text around it and contains the tag exactly when the two sides spell it |
| ThinkFilter.BlockIsHidden | app/api/routes.py:847-865 | a block between the literal tags is hidden together with them |
| ThinkFilter.OutputMaySpellTheTag | app/api/routes.py:844-865 | such a text exists: its filtered output is itself the opening tag |
| ThinkFilter.TokenScanner.OnToken | app/api/routes.py:843-865 | the in-place loop over the buffer terminates with the fragments and the held state of the specification |
| ThinkFilter.StreamTokens | app/api/routes.py:835-876 | the whole token loop with its final flush shows the batch result of the joined output |
| ResponseCache.StaleOnlyAtEpochOne | app/redis_client.py:95-113 | a run that serves a stale answer to a chat that read epoch e after b bumps exists if and only if e = 1 and b = 1, or e = 1, b > 1 and reads of the epoch may fail |
| ResponseCache.StaleAnswer | app/redis_client.py:95-113 | a run for each such case: an answer from before the first change is served after b bumps |
| ResponseCache.HitsAreFresh | app/api/routes.py:755-793 | in every interleaving of chats and changes, a stale hit can only be at epoch 1 |
| ResponseCache.FirstBumpIsInvisible | app/redis_client.py:99-108 | with no call failing, a chat that reads the epoch after the first change and its bump is served the answer from before |
| ResponseCache.BumpVisibleUnlessFirst | app/redis_client.py:95-113 | a bump leaves the epoch that readers see unchanged exactly when the key was missing, and never touches another tenant's |
| ResponseCache.SoloChat | app/api/routes.py:755-881 | an undisturbed chat of the protocol is served the cached answer under its key or stores what its retrieval saw, for every combination of failing calls |
| ResponseCache.StepInv | app/api/routes.py:755-881 | every step of a chat, a document change, an expiry or a failing Redis call keeps the freshness invariant |
| ResponseCache.RunInv | app/api/routes.py:755-881 | the freshness invariant holds after every run |
| ResponseCache.EpochCache.GetTenantCacheVersion | app/redis_client.py:95-102 | returns the stored epoch, or 1 for a tenant without one or if the call fails |
| ResponseCache.EpochCache.BumpTenantCacheVersion | app/redis_client.py:105-113 | increments the epoch of this tenant only, from 0 if it is missing, and returns it; a failing call changes nothing and returns 1 |
| ResponseCache.EpochCache.GetCachedResponse | app/redis_client.py:57-65 | finds the answer exactly if it is stored, not expired and the call succeeds |
| ResponseCache.EpochCache.SetCachedResponse | app/redis_client.py:68-77 | what later reads find: for an hour this answer under its key, then nothing, and under other keys what they found before; a failing call changes nothing |
| ResponseCache.EpochCache.ChatStream | app/api/routes.py:755-881 | the cache path serves and stores what `SoloChat` proves of the interleaved protocol |
| DocumentTables.RecordExact | app/database.py:204-237 | the transaction accepts a document exactly when the table it would leave is within the tenant's quotas and satisfies the constraints, reports the quota exactly when it would not be, and leaves that table |
| DocumentTables.RecordKeepsTable | app/database.py:204-237 | an accepted document replaces exactly the row of its filename; one row per filename, unique ids, positive sizes and every tenant's quotas are kept |
| DocumentTables.DeleteFileUsage | app/database.py:206-219 | with positive sizes and one row per filename, the replaced size is nonzero exactly when a row is replaced, and it and that one row are what the delete takes off the usage |
| DocumentTables.PreCheckAgainstTransaction | app/api/routes.py:325-329 | the pre-check never passes what the transaction refuses, and for a new filename the two agree |
| DocumentTables.PreCheckRefusesReplacement | app/api/routes.py:325-329 | for an existing filename, the exact condition under which the pre-check refuses what the transaction accepts: both quotas hold after the replacement, and the tenant is at its document quota or old and new file together exceed the byte quota |
| DocumentTables.OnlyDocumentIsStuck | app/api/routes.py:325-329 | with a document quota of one and room for both files in the byte quota, a tenant cannot replace its document, although the transaction would |
| DocumentTables.FilenameDeleteSafe | app/db/qdrant.py:181-204 | deleting the vectors of a filename strands no row exactly when no row has that filename |
| DocumentTables.ReturnedIsMatched | app/database.py:340-349 | the returned filename belongs to a deleted row, and nothing is returned exactly when no row matches |
| DocumentTables.OneMatch | app/database.py:340-349 | a delete request, by id or by filename, matches one document at most |
| DocumentTables.ReturnedFileIsGone | app/database.py:340-349 | after a delete no row of the tenant has the returned filename |
| DocumentTables.DeleteTable | app/database.py:333-352 | a delete removes exactly the matching rows and keeps uniqueness and every quota |
| DocumentTables.DeleteEffect | app/database.py:333-352 | on any stores: a delete that fails or matches nothing changes nothing; otherwise exactly the matching rows go, and exactly the points of the returned filename if the vector store answers |
| DocumentTables.ClearEffect | app/api/routes.py:730-732 | on any stores: each deletion of a clear takes exactly what belongs to the tenant if it succeeds, and nothing otherwise |
| DocumentTables.PointsOf | app/api/routes.py:341-361 | exactly one point per chunk, carrying the id, tenant, filename and roles of the row |
| Filenames.SupportedHasDot | app/ingestion/parser.py:72-123 | every filename that ingestion accepts contains a dot |
| Filenames.SupportedIff | app/ingestion/parser.py:72-123 | a file is accepted if and only if its name is some name followed by one of the fourteen extensions, in any case |
| Filenames.ExtensionExact | app/ingestion/parser.py:73 | the extension is empty or the end of the name from its last dot on, without a slash |
| Filenames.ExtensionOf | app/ingestion/parser.py:73 | a name followed by an extension has that extension |
| Filenames.UuidHasNoDot | app/api/routes.py:340 | no document id contains a dot, so none is a filename |
| IngestSaga.NoDanglingRow | app/api/routes.py:363-404 | under every interleaving of ingests that may fail, be compensated or stop anywhere, and of deletes and clears under their exact guards, every row has all its chunk vectors in every reachable state |
| IngestSaga.QuotaUnderConcurrency | app/database.py:204-237 | in every reachable state each tenant is within both quotas and has one row per filename, whatever the pre-checks saw and whenever deletes and clears come |
| IngestSaga.StepInv | app/api/routes.py:363-404 | each step of each saga keeps the invariant that a remembered previous id can no longer be needed once its saga has committed |
| IngestSaga.RunInv | app/api/routes.py:297-420 | the saga invariant holds after every run |
| IngestSaga.CleanupIsObsolete | app/api/routes.py:396-403 | the clean-up of a committed saga deletes no vector that a row, or a saga about to commit, needs |
| IngestSaga.DeleteGuardExact | app/api/routes.py:712-716 | a delete between the steps of sagas keeps all vectors that rows and sagas in flight need if and only if no saga with written vectors and no row yet has the deleted filename |
| IngestSaga.ClearGuardExact | app/api/routes.py:730-732 | a clear does so if and only if no saga of the tenant is in flight and, should the row deletion fail, the tenant has no rows |
| IngestSaga.DeleteInFlightStrands | app/api/routes.py:715 | against that guard, the saga in flight leaves a dangling row exactly when its transaction is accepted |
| IngestSaga.PreviousId | app/database.py:156-173 | returns the id of the newest row of that filename, and nothing only if there is none |
| DocumentService.ExactAgreement | app/api/routes.py:341-404 | after any sequence of clean ingests, deletes and clears, the points are exactly `chunks_count` per row with its id, tenant, filename and roles, and no others |
| DocumentService.AgreementIffClean | app/api/routes.py:363-404 | an operation on agreeing stores keeps them in agreement if and only if it is clean: nothing left by a broken upsert or a failed clean-up, no half-failed delete or clear |
| DocumentService.IngestKeepsAgreementIff | app/api/routes.py:363-404 | an accepted ingest replaces the document of its filename, any other leaves the table alone; the stores agree after it if and only if the upsert wrote all or nothing and every needed clean-up succeeded |
| DocumentService.AcceptedIff | app/api/routes.py:306-381 | which documents are accepted: known extension, some text, a size, only the three role names, room for one more document and for its size, and calls that succeed |
| DocumentService.UnbumpedChangeIff | app/api/routes.py:396-404 | an operation changes one of the stores without bumping the cache epoch of the tenant if and only if it leaves vectors without a row |
| DocumentService.SoloSaga | app/api/routes.py:363-404 | the interleaved saga, run undisturbed, computes what the sequential ingest computes, for every outcome of its calls |
| DocumentService.DeleteKeepsAgreementIff | app/api/routes.py:701-717 | a delete keeps the two stores in agreement if and only if no row matches, the vectors of the deleted row could be deleted too, or the row deletion failed |
| DocumentService.DeleteExact | app/api/routes.py:712-716 | for every outcome of the calls: a request that matches deletes exactly the document it names, and its vectors if the vector store answers; any other request, or a failing row deletion, changes nothing |
| DocumentService.ClearKeepsAgreementIff | app/api/routes.py:730-732 | a clear keeps agreement if and only if both deletions succeed, both fail or the tenant has no rows; the swallowed error of the row deletion alone leaves rows without vectors |
| DocumentService.ClearAgrees | app/api/routes.py:720-733 | clearing removes all rows and points of the tenant, nothing of any other, and keeps agreement |
| DocumentService.PointsPerRow | app/api/routes.py:341-361 | in agreeing stores a row has exactly as many points as its recorded number of chunks |
| DocumentService.Backend.RecordDocument | app/database.py:187-237 | the table becomes that of the specified transaction, or stays on a refusal |
| DocumentService.Backend.ProcessDocumentIngestion | app/api/routes.py:325-420 | for every outcome of its calls the stores become those of the specified ingest; it returns, and bumps the epoch, exactly for an accepted document whose predecessor could be cleaned up |
| DocumentService.Backend.DeleteDocument | app/api/routes.py:701-717 | only an administrator changes anything; the stores become those of the specified delete; the answer is not found exactly if no row was deleted, an error exactly if the vectors of the deleted row remain, and the epoch is bumped otherwise |
| DocumentService.Backend.ClearAllDocuments | app/api/routes.py:720-733 | only an administrator changes anything; the stores become those of the specified clear; unless the vector store fails, the epoch is bumped and the number of deleted documents is returned, 0 if the row deletion failed |
| AgentGraph.BoundedCorrection | app/agents/graph.py:290-311 | whatever retrieval, grader and rewriter answer, a turn is retrieve-grade-generate, with one rewrite, second retrieve and grade in between exactly if rewriting is enabled, the question has more than two words and is none of the ten phrases, documents are listed for it, and their context is short or judged irrelevant |
| AgentGraph.RetrieveIff | app/agents/graph.py:75-148 | retrieve searches exactly if the question is not empty, none of the ten phrases and, if it has at most two words, does not begin with a greeting; what it leaves in the state in each of the three cases |
| AgentGraph.PromptOfTurn | app/agents/graph.py:238-287 | what generate builds its prompt from at the end of a turn: greeting, or the first 3000 characters of the context and the documents of the last retrieval, which after a correction is that for the rewritten query |
| AgentGraph.LastUserTextIs | app/agents/graph.py:51-58 | the query is the newest message of the user or of the chat library |
| AgentGraph.PathByRouter | app/agents/graph.py:298-309 | from any state of the checkpoint, the first routing decision fixes the whole path to generate |
| AgentGraph.StepDescends | app/agents/graph.py:80-89 | every step lowers a rank, although the greeting branch resets the rewrite counter: the graph terminates from every state |
| AgentGraph.NoStaleTurnState | app/api/routes.py:825-833 | the relevance verdict and document list that a checkpoint kept from an earlier turn change neither the path nor what generate sees |
| AgentGraph.GreetingPromptIff | app/agents/graph.py:249-253 | generate uses its greeting prompt exactly when the last retrieve of the turn took the greeting branch |
| AgentGraph.PromptFollowsBranch | app/agents/graph.py:80-89 | the same from any configuration of the graph |
| Lockout.LockoutBound | app/core/auth.py:110-133 | over any window without a successful login, from any state of the account, failed password checks number at most the free attempts (at least one) plus one per full lock time |
| Lockout.CleanAccountBound | app/core/auth.py:110-133 | from a clean account the bound is the maximum plus the number of lock times, for every such run, and a run that reaches it exists for every policy |
| Lockout.AccountFromHistory | app/core/auth.py:110-141 | in every run from a clean account, successes included, the row is determined by the answers given: the counter is the number of failed checks since the last success, and the lock runs from the last of them exactly if there were enough |
| Lockout.SuccessForgives | app/core/auth.py:134-141 | after a successful login, whatever the account was, fewer than the maximum of failed checks lock nobody out, and the bound of a clean account starts anew |
| Lockout.LockedPhase | app/core/auth.py:117-122 | once the counter has reached the maximum, failed checks are a lock time apart, because an expired lock keeps the counter |
| Lockout.PeriodsIsFloor | app/core/auth.py:120 | the number of full lock times in the bounds is the floor of the quotient |
| Lockout.UserRow.AuthenticateUser | app/core/auth.py:88-142 | the row of an active user changes as `AccountFromHistory` describes and that of an inactive one not at all; the password is checked exactly when the user is active and not locked |
| RateLimit.FixedWindowBound | app/redis_client.py:80-92 | in any interleaving of INCR and EXPIRE every lifetime of the key counts at most the limit as accepted, and every closed span of one window length fewer than twice the limit (none for a limit of 0) |
| RateLimit.BoundIffRedisRequired | app/redis_client.py:87-92 | all accepted requests, those with a failing INCR included, stay below twice the limit in every run and span if and only if Redis is required |
| RateLimit.SoloRequest | app/redis_client.py:80-92 | the interleaved commands of one undisturbed request leave the key that `AfterRequest` says and accept what it accepts, for every combination of failing calls |
| RateLimit.FailuresRefuse | app/redis_client.py:83-92 | a request with a failing call is refused exactly if Redis is required, any other exactly if it exceeds the limit; a failing EXPIRE leaves no expiry |
| RateLimit.FixedWindowBoundReached | app/redis_client.py:80-92 | one less than twice the limit is reached for every limit and window, so the bound is exact |
| RateLimit.LivesApart | app/redis_client.py:84-85 | requests two lifetimes of the key apart are more than a window apart |
| RateLimit.StepInv | app/redis_client.py:80-92 | INCR and EXPIRE of any request keep the invariant of counter, expiry and accepted requests |
| RateLimit.RunInv | app/redis_client.py:80-92 | the limiter invariant holds after every run |
| RateLimit.Limiter.IsRateLimitExceeded | app/redis_client.py:80-92 | key and answer are those that `SoloRequest` proves of the interleaved protocol |
| SqlLike.LikePrefix | app/database.py:319-321 | a pattern of plain text and a final `%` matches exactly the texts with that prefix |
| SqlLike.LikeContains | app/database.py:275-279 | a plain text between two `%` matches exactly the texts that contain it |
| Visibility.VisibilityAgreement | app/database.py:255-279 | for every `allowed_roles` text that ingestion accepts, given by its parts between commas, and every role a token can carry: the document is listed exactly when its vectors pass the search filter, and both mean that the role is admin or that some part, stripped and in lower case, is the role |
| Visibility.RolesOfText | app/api/routes.py:336 | the stored roles are exactly the parts of the text that are not blank, stripped and in lower case, in order |
| Visibility.AcceptedText | app/api/routes.py:337-338 | a text is accepted if and only if some part is not blank and every such part names one of the three roles |
| Visibility.SqlMeansMember | app/database.py:274-275 | each half of the SQL condition alone means membership of the role in the stored list |
| Visibility.SqlNormalizes | app/database.py:266-279 | a role in other spelling is listed for what it is stripped and in lower case |
| Visibility.NoRoleListsAll | app/database.py:255 | a listing without a role, or for an administrator in any case, has no filter |
| Visibility.SplitJoin | app/api/routes.py:378 | splitting the stored column at commas gives back the roles that were joined |
| Visibility.JoinSplit | app/api/routes.py:336 | every text is the join of its parts between commas |
| Visibility.RoleWithinRole | app/api/routes.py:337 | no role name is a substring of another |
| Visibility.ContainsInPart | app/database.py:275 | a text without comma that occurs in the joined list occurs in one of the roles |
| ThreadScope.HistoryScope | app/api/routes.py:104-132 | unless SHA-256 collides on the two encodings, the pattern of one (tenant, user) matches a stored thread id exactly when the thread was built for the same tenant and user, for all strings that do not split a character into two surrogates; for those, exactly when their UTF-16 forms agree |
| ThreadScope.ThreadIdsSeparate | app/api/routes.py:104-122 | unless SHA-256 collides, two thread ids are equal exactly when tenant, user and thread agree in their UTF-16 forms, which for strings without split characters means that they are equal |
| ThreadScope.ScopeMatchesDigest | app/database.py:311-330 | without any assumption on the digest, a stored thread id matches exactly when the two scope digests are equal |
| ThreadScope.CacheKeysSeparate | app/api/routes.py:84-101 | unless SHA-256 collides, two cache keys are equal exactly when epoch and query are equal and tenant, user, role and thread agree in their UTF-16 forms, which for strings without split characters means that they are equal |
| ThreadScope.JsonArrayInjective | app/api/routes.py:106-112 | the compact ASCII JSON of an array identifies its strings up to their UTF-16 forms, and no less |
| ThreadScope.EscapedPrefix | app/api/routes.py:108-112 | an escaped string ends at its first plain quote, so it and everything after it can be read back |
| ThreadScope.ReadEscaped | app/api/routes.py:110 | a JSON reader gets an encoded text back, whatever follows it |
| ThreadScope.UnescapeEscape | app/api/routes.py:110 | every UTF-16 unit is escaped to printable ASCII that a JSON reader reads as this unit, printable characters as themselves |
| ThreadScope.CompactForm | app/api/routes.py:111 | the arrays are written with brackets, commas and nothing else between the items |
| ThreadScope.EscapeInjective | app/api/routes.py:110 | two UTF-16 units with one escape are equal |
| ThreadScope.DecimalInjective | app/api/routes.py:96 | two epochs with one decimal form are equal |
| ThreadScope.DecimalReads | app/api/routes.py:96 | the decimal form of an epoch has the value of the epoch |
| ThreadScope.Utf16Injective | app/api/routes.py:110 | strings without a high surrogate directly before a low one, which is all that decoding JSON or UTF-8 yields, are equal if their UTF-16 forms are |
| ThreadScope.SurrogatePairCollides | app/api/routes.py:110 | two surrogates and the character they split are different strings with one encoding, so the theorems need that decoding never yields such a pair |

## Left out

- Embedding models, ranking, rank fusion, reranking and LLM calls: retrieval results, verdicts and rewritten queries are arbitrary inputs.
- The loop of `retrieve_node` that assembles context chunks, and the prompt texts of `generate_node`: the context is an arbitrary input and the prompt is reduced to what it is built from.
- File parsing, chunking and OCR: beyond the check of the extension, an ingest starts with any number of chunks, one vector each; an empty list is refused like an unknown extension.
- Regex redaction, Presidio and NeMo rails: the filter is modelled before redaction, which works per fragment and so may depend on the tokens; the cached answer is not compared with the shown one.
- Password hashing, JWT, OIDC and token revocation: the password check is a boolean input.
- Ambiguous network failures, where the server committed but the client saw an error, and with them the acknowledgement after a failed enqueue: an enqueue is done or without effect.
- Expiry of status keys after a day, failing status writes, and the process-local `_ingestion_tasks` copy of the statuses; payloads may expire at any time.
- The JSON text of a queue entry: a raw job is its task id and attempt, since all other fields are functions of the task id and decoding followed by encoding gives the same text.
- Steps between the row deletion and the vector deletion of one delete or clear: in `IngestSaga` each is one step between the steps of sagas, under the guards that `DeleteGuardExact` and `ClearGuardExact` prove exact.
- DocumentService.ExactAgreement: assumes that every operation is clean, because otherwise the code itself leaves the stores in disagreement; `AgreementIffClean` proves that it does.
- StatusLifecycle.StatusIsFinal: only promises something of tasks that were never requeued, because the code keeps a final status for no others, as `FinalUnlessRequeued` shows.
- The conversation history on which a cached answer also depends: freshness is about documents only.
- Eviction of an epoch key by Redis: an epoch is only ever incremented. A bump that fails is a change without a bump, and freshness speaks of bumped changes.
- RateLimit.FixedWindowBound: speaks of counted requests, because outside REQUIRE_REDIS the code accepts requests with a failing INCR uncounted; `BoundIffRedisRequired` covers both.
- The resolution of clocks: times are integers of any unit. A Redis key is still there at its expiry instant and gone after it; a lock is open at the time stored.
- Two clocks in the lockout: the lock is checked against the application's clock and set by the database's; one clock is modelled.
- The methods of the classes run undisturbed; interleavings are the subject of the state machines, and SoloReclaim and SoloSaga tie the two together.
- Table, column and ordering details of the listing query (DISTINCT ON, `created_at`): with one row per filename they select all visible rows.
- Python's `strip`, `lower` and word count are parameters; Visibility assumes only that `strip` and `lower` keep the three role names, AgentGraph that `lower` keeps the empty text.
- The digest of ThreadScope is a parameter with 64 hexadecimal characters; no collision is assumed only for the texts that are compared, as no such function is injective on all texts.
- Errors raised inside graph nodes, and LangGraph's own recursion limit: a run ends with the error.
- Telemetry, audit logging, evaluation metrics, migrations as such, the frontend, deployment files and HTTP wiring.
