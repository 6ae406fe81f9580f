# Document Core: a verified model

Document Core takes documents in, classifies them, quarantines what a person has to review,
and delivers the rest to target systems. This project models, in Dafny, the five parts of it
that must stay right under concurrency, failure and tampering, and proves what each of them
promises.

* **Jobs under concurrency.** `Jobs` holds the job table and the effect of every store
  transaction, `Pipeline` the operations that work on jobs and files (`ingest`, `process`,
  `review`, `release`, deletion). `Concurrency` lets any number of workers and operator requests
  interleave, each keeping the row it read between two transactions and writing it back
  whole, and proves what holds under every interleaving: row invariants, one connector call
  per quarantine. `Leases` adds punctual heartbeats and proves exclusivity, `Thefts` that the
  writes it excludes are exactly those that endanger it. `Queue` and `Waiting`
  bound the claims, end the queue and bound the waiting times. `RetryAfter` reads the header.
* **Work files.** `WorkFiles` proves over all runs of whole operations that every file has one
  job and every job its bytes. `SharedFiles` puts the files beside the table of `Concurrency` and
  says which stale writes undo that. `DeleteRace` and `IngestRace` cut the operations into their
  single effects and interleave those; `IngestRuns` holds the runs that go wrong.
* **The audit chain.** `AuditChain` says what appends, retention cuts, one-time chaining and
  arbitrary edits do to a hash-linked table; `AuditStore` is the store that does them in place;
  `Logins` adds login throttling, which reads the table that retention cuts.
* **Redaction.** `Redaction` is the longest-first rewriting of secrets in nested values.
* **Wire formats and delivery.** `Instream`, `Multipart` and `FormFields` prove that what is streamed
  is read back; `Delivery` is the filesystem connector.

`Wrappers`, `Orderings` and `Bytes` hold shared notions. The hash is an arbitrary function,
injective only where a lemma says so. What external systems answer (extraction,
classification, scanner, connector, file system failures, clocks) is passed in as arbitrary
values.

## What turned out different

Where the code does not meet a promise on every input, the model keeps the code, a lemma gives
the input, and another lemma gives the exact condition (for redaction, among secrets without brackets).

* Cutting the tail of the audit table is not visible to verification
  (`AuditChain.DeletionVisible`): what is left verifies exactly when it is a prefix.
* Redaction can leave a secret behind when the secret is a piece of the marker's own word
  (`Redaction.CompleteExactly`) or has brackets (`Redaction.BracketSecretRebuilt`).
* A secret learned after an entry mentioning it was logged makes the next start rewrite that
  entry and break the chain (`AuditChain.LaterSecretBreaksChain`); a start keeps the chain exactly
  when no stored entry mentions a known secret (`AuditChain.StartupRedactionExactly`).
* Punctual heartbeats alone do not keep two workers off one job, because a review request writes back the
  row it read long ago (`Thefts.StaleReviewBreaksExclusivity`). The steps that make this possible are
  exactly the requests writing anything but DELIVERED over a job in work (`Thefts.TheftExactly`,
  `Leases.NoHarmNoTheft`).
* A worker that still holds a deleted job takes the file of the same content ingested anew
  (`WorkFiles.DeletedTwinLosesFile`), exactly when its attempt quarantines, archives or needlessly
  deletes the file (`WorkFiles.DeletedTwinExactly`).
* A review or another whole-row write can bring back a row whose file a delivery has dropped or archived
  (`SharedFiles.StaleReviewLosesFile`); exactly when is `SharedFiles.TooLateExactly`, and besides the
  worker above no other step of the concurrent model endangers ownership (`SharedFiles.SharedStepExactly`).
* An ingest whose insert raises can unlink the file of a concurrent ingest of the same document, before
  or after that one's insert (`IngestRuns.RaisedInsertLosesFile`). An ingest beaten to the insert can
  put back a file a worker has just moved (`IngestRuns.MovedFileComesBack`). A deletion can unlink the file
  of a job that ingested the same document again meanwhile (`IngestRuns.DeletionTakesNewFile`). Exactly
  which single effects go wrong is `IngestRace.StepExactly`.
* Deleting a job under the archive policy while it is being delivered can leave its archived copy
  (`DeleteRace.ArchiveLeftoverExactly`).
* Failed logins recorded in the same microsecond as a success may not be counted, so that more passwords
  are rejected than permitted (`Logins.TiesBreakLimit`); every answer is complete exactly without such a
  tie (`Logins.CountsAllExactly`).
* A `Retry-After` of superscript digits raises instead of being ignored (`RetryAfter.RetryAfterExactly`,
  `RetryAfter.SuperscriptRaises`).
* A file that begins with the dash-boundary breaks the multipart body although the delimiter itself does
  not occur in it (`Multipart.ParsesBack`, `Multipart.DashBoundaryAtStart`).
* A file name with a backslash is not what a receiver reads in the multipart header, since the name is written
  into a quoted string as it is (`FormFields.ReceivedAsSent`).
* The filesystem connector writes a suffixed name without looking whether it is taken
  (`Delivery.SuffixedNameOverwrites`, exactly when in `Delivery.OverwrittenExactly`).

## Model

| member | source | states |
|---|---|---|
| `Jobs.JobStore.Save` | src/document_core/store.py:311-320 | a save overwrites the whole row unconditionally, and does nothing when the row is gone |
| `Jobs.JobStore.CreateIfAbsent` | src/document_core/store.py:322-333 | a row is added exactly when neither its id nor its hash is taken; otherwise nothing changes and the job with the hash is returned, or the error raised again when there is none |
| `Jobs.JobStore.FindByHash` | src/document_core/store.py:345-348 | finds a job exactly when one has the hash |
| `Jobs.JobStore.ClaimDelivery` | src/document_core/store.py:350-357 | succeeds exactly on a QUARANTINED row, which alone becomes DELIVERING |
| `Jobs.JobStore.ClaimNext` | src/document_core/store.py:359-389 | claims a due job no other transaction has locked, none such being older, counting the attempt and setting worker and lease; None only when nothing unlocked is due |
| `Jobs.JobStore.RenewLease` | src/document_core/store.py:391-405 | extends the lease exactly when the row is PROCESSING under this worker |
| `Jobs.JobStore.RetryFailed` | src/document_core/store.py:407-425 | resets exactly a FAILED row to RECEIVED with no attempts, due at once, without worker, lease or error |
| `Jobs.JobStore.DeleteStalledJob` | src/document_core/store.py:427-444 | removes exactly a FAILED, PROCESSING or QUARANTINED row and returns it; every other row stays |
| `Pipeline.Validate` | src/document_core/processing.py:256-262 | no rule error exactly for a known type with a routing reference where one is required |
| `Pipeline.BrokenRules` | src/document_core/processing.py:256-262 | the errors name exactly the rules that are broken |
| `Pipeline.BackoffDoubles` | src/document_core/pipeline.py:243-243 | the first delay is the base and each further attempt doubles it |
| `Pipeline.DocumentPipeline.StageAndHash` | src/document_core/pipeline.py:138-167 | the chunk loop leaves exactly the source in the staging file with its hash, or no staging file when the size limit is exceeded or a read or write raises |
| `Pipeline.DocumentPipeline.Ingest` | src/document_core/pipeline.py:73-136 | rejected exactly for a source that is too long, unreadable or refused, a duplicate exactly for a known hash, accepted exactly when the insert of a new one succeeds; the accepted row holds name, hash and inbox path and nothing else yet; table and files change as `WorkFiles` assumes, for every way the insert can end |
| `Pipeline.DocumentPipeline.FinalizeWorkCopy` | src/document_core/pipeline.py:342-363 | retain, delete and archive leave the work copy as the ownership lemmas assume; a failing clean-up changes nothing |
| `Pipeline.DocumentPipeline.RunSteps` | src/document_core/pipeline.py:194-234 | the try block stops at the first step that raises and keeps what was done until then |
| `Pipeline.DocumentPipeline.NoteFailure` | src/document_core/pipeline.py:235-266 | the except block: RECEIVED with the delay while attempts are left and the failure is not permanent, else FAILED |
| `Pipeline.DocumentPipeline.Process` | src/document_core/pipeline.py:182-270 | the step-by-step process has the effect that the concurrency and ownership lemmas reason about, and saves the job without worker and lease |
| `Pipeline.DocumentPipeline.SaveReview` | src/document_core/pipeline.py:272-310 | a review replaces the type and routing it names, keeps the others, and writes nothing when the named target is unusable |
| `Pipeline.DocumentPipeline.Release` | src/document_core/pipeline.py:312-340 | the step-by-step release has the effect the ownership lemmas reason about: rejected, not claimed, delivered or failed; it answers the row as it then stands |
| `Pipeline.DocumentPipeline.DeleteJob` | src/document_core/api.py:1025-1042 | a delete removes the row of a FAILED, PROCESSING or QUARANTINED job and both its possible work copies, and no other; or nothing |
| `Pipeline.KeepsId` | src/document_core/pipeline.py:194-234 | no step of processing changes id, hash, name, attempts, creation time or routing |
| `Pipeline.ProcessOutcome` | src/document_core/pipeline.py:182-270 | how an attempt ends, read off the answers of its steps: if none raises, DELIVERED with the reference when type and routing meet the rules, else QUARANTINED with the broken ones; if one does, the first such error is noted last, and the job is FAILED exactly when that error is permanent or the attempts are used up, else RECEIVED again after the backoff or the connector's Retry-After, whichever is longer |
| `Pipeline.ProcessFiles` | src/document_core/pipeline.py:194-234 | where an attempt leaves the file: in quarantine with its bytes exactly for a refused job, dropped, archived or kept for a delivered one as the policy has it, untouched otherwise |
| `Pipeline.ReviewOutcome` | src/document_core/pipeline.py:272-310 | a review is refused exactly for an unusable target, and otherwise sets exactly what it names |
| `Pipeline.ReleaseOutcome` | src/document_core/pipeline.py:312-340 | a release of any row read before: unmet rules write it back as QUARANTINED, only a row that still is QUARANTINED is delivered, with reference, cleaned-up file or noted error, and nothing happens otherwise; no other row changes |
| `Pipeline.ReviewThenRelease` | src/document_core/pipeline.py:272-340 | a reviewed and then released job ends DELIVERED exactly when type and routing as reviewed satisfy the rules and the connector accepts; QUARANTINED or FAILED exactly otherwise; no other row changes |
| `Pipeline.IngestOutcome` | src/document_core/pipeline.py:73-136 | exactly a new, accepted content within the limit whose insert was committed becomes a job: RECEIVED, of unknown type, with its hash, name and bytes, without routing, attempts, worker or error; no other file appears, and besides the staging file only the own inbox path can go |
| `Concurrency.ProcessedGood` | src/document_core/pipeline.py:182-270 | a claimed job ends an attempt well-formed, never PROCESSING or DELIVERING, whatever its steps answer |
| `Concurrency.SavedGood` | src/document_core/pipeline.py:182-340 | every whole-row write of any process, stale or not, is well-formed and keeps the hash known for its id |
| `Concurrency.StepKeeps` | src/document_core/store.py:311-444 | each single step of any process keeps the row, hash and snapshot invariants |
| `Concurrency.RowsStayGood` | src/document_core/store.py:311-444 | in every state of every interleaving: PROCESSING iff worker iff lease, a next attempt only on RECEIVED, RECEIVED below the maximum, DELIVERED with a destination and without rule errors, hashes unique |
| `Concurrency.DeletedNeverReturns` | src/document_core/store.py:311-320 | a deleted id never reappears, also when processes still hold its row |
| `Concurrency.UnroutedNeverDelivered` | src/document_core/pipeline.py:212-214 | where routing is required, a document ingested in a run is never DELIVERED before a review has given it a routing reference, under every interleaving |
| `Concurrency.ProcessAlone` | src/document_core/pipeline.py:182-270 | a claim and the closing save, with nobody in between, are process |
| `Concurrency.ReviewAlone` | src/document_core/pipeline.py:272-303 | the two steps of a review, with nobody in between, are review |
| `Concurrency.RejectAlone` | src/document_core/pipeline.py:312-328 | so are the steps of a release that is rejected or finds the job taken |
| `Concurrency.CallAlone` | src/document_core/pipeline.py:329-333 | a release that claims a quarantined job reaches the connector |
| `Concurrency.FinishAlone` | src/document_core/pipeline.py:333-340 | and ends with the table that release leaves |
| `Concurrency.CreditPays` | src/document_core/store.py:350-357 | one step: connector calls plus the calls still possible never grow except by a QUARANTINED write |
| `Concurrency.CallsArePaid` | src/document_core/pipeline.py:312-340 | over every run, calls made plus calls still possible are bounded by the initial ones plus the QUARANTINED writes |
| `Concurrency.ReleaseConservation` | src/document_core/pipeline.py:312-340 | a job's connector calls by release never exceed its QUARANTINED writes (from a table without it), and any number of parallel releases from one quarantine makes at most one |
| `Leases.DueExactly` | src/document_core/store.py:361-371 | a held job is due to others exactly when its worker has not renewed for a whole lease |
| `Leases.HeldRowKept` | src/document_core/store.py:359-405 | with running leases no other process touches a held row except to delete it |
| `Leases.StepKeepsHolds` | src/document_core/store.py:311-405 | a step keeps every worker's hold exactly when it is not a request writing over a held row |
| `Leases.HoldsExactly` | src/document_core/worker.py:20-38 | with punctual heartbeats, every row in work stays as its worker claimed it, apart from the lease, exactly when no request writes over it |
| `Leases.LeaseExclusivity` | src/document_core/worker.py:69-79 | in such a run no claim takes a job another worker is working on, and a finishing worker overwrites the row it claimed, for any number of workers, jobs, crashes and deletions |
| `Leases.StepKeepsGuard` | src/document_core/store.py:311-444 | one step of any process keeps rows in work unclaimable and workers alone on their jobs, unless a request writes anything but DELIVERED over such a row; only heartbeats that can still renew have to be on time |
| `Leases.NoHarmNoTheft` | src/document_core/worker.py:69-79 | no punctual run without such a write takes a job from a worker, with any requests, crashes, retries and deletions, however long workers go on after their row was delivered or deleted |
| `Leases.RoomForLateness` | src/document_core/worker.py:25-25 | the interval is a third of the lease or one second, whichever is longer; it is shorter than the lease exactly for leases over one second, and by at least a second from two seconds on |
| `Thefts.TheftExactly` | src/document_core/store.py:311-320 | whatever step a process takes, a punctual run that begins with it, writes nothing harmful afterwards and ends by taking a job from its worker exists exactly when the step is a request writing anything but DELIVERED over the row of a job in work |
| `Thefts.HarmIsTheft` | src/document_core/pipeline.py:272-340 | from any state in which a request writes QUARANTINED or FAILED over a job in work, such a run |
| `Thefts.StaleReviewBreaksExclusivity` | src/document_core/pipeline.py:272-303 | from any releasable quarantined job, a run with punctual heartbeats that ends in a claim of a job another worker is still working on |
| `Queue.ClaimsReceived` | src/document_core/store.py:361-371 | without crashes, only RECEIVED jobs are claimed |
| `Queue.StepKeepsOwned` | src/document_core/worker.py:69-79 | without crashes, every PROCESSING row belongs to a running worker |
| `Queue.ClaimWorks` | src/document_core/pipeline.py:235-266 | each claim uses up one of the remaining attempts and no worker step adds any |
| `Queue.ClaimsBounded` | src/document_core/store.py:359-389 | any interleaving of any number of workers makes at most as many claims as RECEIVED jobs have attempts left |
| `Queue.NeverStuck` | src/document_core/store.py:359-389 | an unfinished job is being worked on or can be claimed after waiting |
| `Queue.Heartbeat` | src/document_core/worker.py:20-38 | the heartbeat loop leaves the lease at its last wake plus the lease time, and stops at the first failing renewal without a change |
| `Queue.LeasesOverlap` | src/document_core/worker.py:25-31 | a lease outlives the next wait exactly when that wait is late by less than lease minus interval |
| `Queue.Turn` | src/document_core/worker.py:69-79 | one turn of the worker loop ends a RECEIVED job or leaves strictly less work, touching no other row |
| `Queue.Drain` | src/document_core/worker.py:68-81 | repeated claim and process terminates with every RECEIVED job DELIVERED, QUARANTINED or FAILED and all other rows unchanged, within the claim bound |
| `Waiting.OthersKeepWaiting` | src/document_core/store.py:311-444 | only a claim, the holder's save or a manual retry changes the attempts or waiting time of a queued or held row |
| `Waiting.PatientCrashless` | src/document_core/api.py:980-1001 | without manual retries no review or release ever writes over a job in work, since a job once past its queue does not return to it |
| `Waiting.BackoffBound` | src/document_core/pipeline.py:239-247 | the n-th claim of a job comes at least base * (2^(n-1) - 1) seconds after its first, whatever else interleaves, deletions and requests included, without crashes and manual retries |
| `Waiting.RetryAfterRespected` | src/document_core/pipeline.py:239-247 | after a failed attempt the next claim waits the backoff and the connector's Retry-After |
| `RetryAfter.SecondsReadBack` | src/document_core/connectors.py:215-216 | a decimal number of seconds (section 10.2.3 of RFC 9110), with any blanks around it, is read back, capped at a day |
| `RetryAfter.RetryAfterExactly` | src/document_core/connectors.py:212-224 | a readable number or date gives its seconds, within 0..86400; an empty header or anything else gives none; the call raises exactly for digit strings that int() refuses |
| `RetryAfter.StripBetweenBlanks` | src/document_core/connectors.py:215-216 | what is read lies between blanks and has none at its ends |
| `RetryAfter.SuperscriptRaises` | src/document_core/connectors.py:215-216 | a superscript two raises ValueError |
| `WorkFiles.OthersElsewhere` | src/document_core/pipeline.py:90-94 | no other job's work copy is at any place this job's may be |
| `WorkFiles.PathsDiffer` | src/document_core/pipeline.py:90-94 | no two jobs share a path |
| `WorkFiles.ProcessMoves` | src/document_core/pipeline.py:182-270 | an attempt takes the work copy along with its bytes, or delivers and drops it; without a file it touches none |
| `WorkFiles.IngestKeeps` | src/document_core/pipeline.py:73-136 | an ingest keeps ownership, however the insert ends |
| `WorkFiles.ProcessKeeps` | src/document_core/pipeline.py:182-270 | processing a current snapshot, or one of a deleted job whose path nobody owns, keeps ownership |
| `WorkFiles.ReleaseKeeps` | src/document_core/pipeline.py:312-340 | a release keeps ownership |
| `WorkFiles.RemoveKeeps` | src/document_core/api.py:1030-1041 | removing a row with both unlinks keeps ownership |
| `WorkFiles.WorkFileOwnership` | src/document_core/pipeline.py:73-363 | after any run from an empty store: each job not delivered under the delete policy has bytes with its hash at its path, paths are distinct, every file has a job and no staging file is left |
| `WorkFiles.DeletedTwinExactly` | src/document_core/pipeline.py:214-220 | when a deleted job's path has come to belong to another job, the old worker's attempt breaks ownership exactly when the file is there and the answers of its steps make it quarantine the file, archive it, or delete one whose owner was not delivered |
| `WorkFiles.DeletedTwinLosesFile` | src/document_core/api.py:1025-1042 | five operations after which a RECEIVED job has lost its file |
| `DeleteRace.WorkerAlone` | src/document_core/pipeline.py:182-270 | the worker's separate effects, run without a race, are process |
| `DeleteRace.DeleteAlone` | src/document_core/api.py:1025-1042 | the endpoint's three effects, run without a race, are the delete |
| `DeleteRace.DeleteLeavesNothing` | src/document_core/api.py:1030-1041 | in every interleaving with a worker on the same job, once the delete has answered no row, inbox copy or quarantine copy remains, under every policy |
| `DeleteRace.ArchiveLeftoverExactly` | src/document_core/pipeline.py:342-363 | some interleaving leaves an archived copy without a row exactly when the policy archives and the attempt delivers |
| `IngestRace.DuplicateAlone` | src/document_core/pipeline.py:88-91 | the effects of one ingest, with nobody in between, are the ingest: staging and lookup of a known hash |
| `IngestRace.InsertAlone` | src/document_core/pipeline.py:111-136 | of a new hash, up to the insert |
| `IngestRace.UnlinkAlone` | src/document_core/pipeline.py:115-119 | and with an insert that raises, up to the clean-up |
| `IngestRace.RowKept` | src/document_core/pipeline.py:111-133 | a step that takes no needed file leaves every job's file where the job is, with its bytes, and the row well-formed |
| `IngestRace.StepExactly` | src/document_core/pipeline.py:73-136 | each single effect of one of many concurrent ingests, workers, releases and deletions keeps every job its bytes and every file somebody who sees to it, exactly when it takes no file that a job or another ingest needs, deletes no row that lets another ingest insert one without its file, leaves no file to a job that has moved on or is gone, and puts none where neither row nor deletion looks |
| `IngestRace.RunExactly` | src/document_core/pipeline.py:73-136 | a run of any ingests, workers, releases and deletions is good in every state exactly when each of its steps is of that kind |
| `IngestRace.ConcurrentIngests` | src/document_core/pipeline.py:73-136 | any number of concurrent ingests, equal contents included, are good in every state and end with every job holding its bytes and every file its job, if no insert raises and nobody interferes, or if raising ingests are alone with their content until they have cleaned up, nothing is deleted, and no file is moved of which another ingest is past the lookup |
| `IngestRace.UnlinkExactly` | src/document_core/pipeline.py:115-119 | the unlink after a raised insert is harmless exactly when no job's file is there and no other ingest has placed the file for an insert still to come |
| `IngestRace.DeleteUnlinkExactly` | src/document_core/api.py:1036-1039 | the first unlink of a deletion is harmless exactly under the same condition |
| `IngestRace.QuarantineUnlinkHarmless` | src/document_core/api.py:1040-1041 | the second one always is |
| `IngestRuns.RaisedInsertLosesFile` | src/document_core/pipeline.py:115-119 | a run of two ingests after which a job has lost its file, with the unlink after the other insert or before it |
| `IngestRuns.MovedFileComesBack` | src/document_core/pipeline.py:111-126 | a run of two ingests and a worker after which the inbox holds a file of no job |
| `IngestRuns.DeletionTakesNewFile` | src/document_core/api.py:1030-1041 | a run in which a failed job is deleted, its document is ingested again before the unlink, and the new job ends without its file |
| `SharedFiles.RowWriteExactly` | src/document_core/store.py:311-320 | writing a row back is harmless to the files exactly when the file is still at the place the snapshot names |
| `SharedFiles.TooLateExactly` | src/document_core/store.py:311-320 | it is not when the row has come to name another place or its file was dropped on delivery, except that a delivery under the delete policy may confirm the drop |
| `SharedFiles.SharedStepExactly` | src/document_core/pipeline.py:182-340 | in every interleaving of workers, reviews, releases, retries and deletions, stale saves included, a step keeps ownership exactly when it is no such late write and no process of a deleted job that takes another job's file |
| `SharedFiles.SharedRunExactly` | src/document_core/pipeline.py:73-363 | ownership holds in every state of such a run exactly when none of its steps is harmful |
| `SharedFiles.StaleReviewLosesFile` | src/document_core/pipeline.py:272-303 | a six-step run under the delete policy that leaves a QUARANTINED job without its file |
| `AuditChain.TamperEvident` | src/document_core/store.py:560-580 | two verifying tables with the same anchor index, last index and last entry hash are equal, anchor included |
| `AuditChain.DeletionVisible` | src/document_core/store.py:672-707 | what is left after deleting rows verifies exactly when it is a prefix of the log |
| `AuditChain.InitializeExactly` | src/document_core/store.py:611-639 | after one-time chaining the table verifies, unless a half-chained table did not verify before |
| `AuditChain.ChainedByAge` | src/document_core/store.py:611-639 | a table without hashes comes out verifying, with the same entries, and of two entries the one with the lower index is the older by creation time and then id |
| `AuditChain.ChainedUniquely` | src/document_core/store.py:619-639 | with unique ids one-time chaining has one result only |
| `AuditChain.AppendExtends` | src/document_core/store.py:641-670 | an append extends the chain by its entry, also on a table retention has emptied |
| `AuditChain.UnhashedTip` | src/document_core/store.py:653-655 | after rows with an index but no hash, an entry continues from the zeros |
| `AuditChain.CutDropsPrefix` | src/document_core/store.py:772-800 | a cut drops a prefix of the chain and moves the anchor to where the rest begins |
| `AuditChain.CutExactlyExpired` | src/document_core/store.py:772-800 | when timestamps follow the chain, exactly the expired rows go |
| `AuditChain.CutAfterChaining` | src/document_core/store.py:772-800 | a cut of a table that was chained once removes exactly the entries older than the cutoff, in whatever order they had been stored |
| `AuditChain.RunKeepsHistory` | src/document_core/store.py:607-670 | after any interleaving of appends and cuts the table is the chain of everything logged minus a prefix whose hash the anchor is |
| `AuditChain.EveryRunVerifies` | src/document_core/store.py:672-707 | every state reachable by appends and cuts from a verifying one verifies |
| `AuditChain.HeadCommitsToHistory` | src/document_core/store.py:560-580 | two runs ending in the same index and entry hash logged the same entries in the same order, whatever was cut |
| `AuditChain.StartupRedactionExactly` | src/document_core/store.py:249-250 | the start-up pass keeps a verifying log verifying exactly when no stored entry mentions a known secret (same secret conditions as redaction) |
| `AuditChain.PassVerifiesExactly` | src/document_core/store.py:249-250 | for any secrets, it does exactly when it changes no row |
| `AuditChain.StartupHarmless` | src/document_core/store.py:641-670 | it changes nothing in a log redacted at append time under a superset of the current secrets |
| `AuditChain.LaterSecretBreaksChain` | src/document_core/store.py:249-250 | a secret learned later breaks the chain of an entry that mentions it |
| `AuditStore.AuditStore.InitializeAuditChain` | src/document_core/store.py:611-639 | the loop chains the rows from the anchor in the order `ChainedByAge` speaks of, and only when none has a hash |
| `AuditStore.AuditStore.SaveAuditEvent` | src/document_core/store.py:641-670 | appends the redacted entry at the tip of the chain |
| `AuditStore.AuditStore.VerifyAuditChain` | src/document_core/store.py:672-707 | ok exactly when the table is a chain from the anchor; otherwise the count and index are those of the first row that does not fit |
| `AuditStore.AuditStore.FindBoundary` | src/document_core/store.py:775-783 | the boundary lies before the first retained row, or at the last row when none is retained; the only failure is a retained row without index |
| `AuditStore.AuditStore.DeleteAuditEventsBefore` | src/document_core/store.py:772-800 | removes only expired rows, and from a verifying table exactly the longest expired prefix, moving the anchor |
| `AuditStore.AuditStore.RecentFailedLogins` | src/document_core/store.py:542-558 | the number of failures read before the newest success, in some order of equal timestamps |
| `AuditStore.AuditStore.RedactAuditDetails` | src/document_core/store.py:249-250 | rewrites the details of every row and nothing else |
| `AuditStore.BoundaryCuts` | src/document_core/store.py:775-800 | deleting up to the boundary is the longest expired prefix of a verifying log |
| `AuditStore.NothingToCut` | src/document_core/store.py:784-790 | a boundary at the anchor means nothing is expired at the front, and nothing is cut |
| `Logins.AuditRetentionDays` | src/document_core/api.py:104-110 | 365 without a readable setting, else the stored number, raised to 30 or cut to 3650 |
| `Logins.RetentionHarmless` | src/document_core/api.py:104-116 | a retention cut leaves the answer of recent_failed_logins unchanged for every user and any login window of up to a day |
| `Logins.Login` | src/document_core/api.py:225-260 | a password is looked at only while fewer than the permitted failures are counted, and each outcome appends its audit entry |
| `Logins.AnswersExactly` | src/document_core/store.py:542-558 | for every table, user and window the answers are exactly the numbers from the failures of that user in the window newer than each of the user's successes there to those that none of them is newer than |
| `Logins.OthersNotCounted` | src/document_core/store.py:542-558 | rows of other users and entries other than logins change no answer |
| `Logins.LimitedHasReason` | src/document_core/api.py:225-260 | an attempt is refused only when this user's failures in the log at any earlier step plus failed attempts since, all within the window, reach the limit |
| `Logins.RejectedBelowLimit` | src/document_core/api.py:225-260 | when a password is rejected, fewer than the limit were rejected before it in the span |
| `Logins.Throttled` | src/document_core/api.py:225-260 | across logins, other entries and retention, a span within the window holds at most login_max_attempts rejected passwords of a user between successes |
| `Logins.CountsAllExactly` | src/document_core/store.py:542-558 | every answer counts at least the failures no success is newer than, exactly when none of them shares its timestamp with a success |
| `Logins.TieCountsLess` | src/document_core/store.py:542-558 | with such a tie some order of equal timestamps answers less |
| `Logins.TiesBreakLimit` | src/document_core/api.py:225-260 | for every configuration, a trace of logins at one timestamp with one rejected password more than permitted |
| `Redaction.ReplaceCreatesNothing` | src/document_core/secrets.py:90-97 | replacing one secret creates no occurrence of an inert one and leaves none of its own |
| `Redaction.WholeSecret` | src/document_core/secrets.py:93-96 | longest first, a whole secret becomes one marker, however many shorter secrets it contains |
| `Redaction.EmbeddedSecret` | src/document_core/secrets.py:90-101 | a secret between separators, in a string at any path of a nested value, becomes the marker and its surroundings are redacted on their own |
| `Redaction.FormKept` | src/document_core/secrets.py:98-101 | redaction keeps the structure: the same paths lead to values of the same form, lists of the same length and dictionaries with the same keys, and the string at a path is redacted by itself |
| `Redaction.ReplaceFirst` | src/document_core/secrets.py:93-96 | the first occurrence is replaced, what lies before it is kept, and the search goes on behind it |
| `Redaction.RedactInTurn` | src/document_core/secrets.py:93-96 | the secrets are replaced one after the other, the empty one being skipped |
| `Redaction.RedactionComplete` | src/document_core/secrets.py:90-101 | no string value of the redacted structure contains a non-empty secret |
| `Redaction.CleanUnchanged` | src/document_core/secrets.py:90-101 | a value without secrets is left alone |
| `Redaction.RedactAgain` | src/document_core/secrets.py:90-101 | redacting again, under the same secrets or a part of them, changes nothing |
| `Redaction.BracketFreeInert` | src/document_core/secrets.py:94-96 | a bracket-free secret that is no piece of the marker's word cannot overlap a marker |
| `Redaction.CompleteExactly` | src/document_core/secrets.py:90-101 | for secrets without brackets, redaction is complete on all values exactly when none is a piece of the marker's word |
| `Redaction.BracketSecretRebuilt` | src/document_core/secrets.py:90-101 | a secret with a bracket that redaction itself builds |
| `Redaction.MarkerWordLeaks` | src/document_core/secrets.py:90-101 | a secret out of the marker's word shows up in a redacted string |
| `Redaction.SecretCipher.Encrypt` | src/document_core/secrets.py:38-46 | seals under the primary key and remembers the text; refuses without keys |
| `Redaction.SecretCipher.Decrypt` | src/document_core/secrets.py:48-65 | opens exactly secrets sealed under a configured key, and remembers their text |
| `Redaction.SecretCipher.MigrateOrRotate` | src/document_core/secrets.py:67-88 | the result opens under the primary key with the same text, which redaction then knows; fails exactly without keys or with an unreadable token |
| `Redaction.SecretCipher.Redact` | src/document_core/secrets.py:90-101 | the loops compute the redaction for some longest-first order of the known secrets, and the result is clean when all are inert |
| `Instream.DecodeFrames` | src/document_core/malware.py:51-55 | decoding framed chunks yields the chunks and what follows the zero frame |
| `Instream.RoundTrip` | src/document_core/malware.py:51-55 | a file's chunks, framed, decode to themselves and make up the file |
| `Instream.Scan` | src/document_core/malware.py:44-67 | the sent stream decodes to non-empty frames no longer than the chunk size carrying exactly the file, with nothing after the zero frame; the verdict is Clean exactly for a reply ending in OK |
| `Instream.Interpret` | src/document_core/malware.py:62-67 | Clean exactly for a reply ending in OK, a signature exactly for one ending in FOUND |
| `Instream.FoundSignature` | src/document_core/malware.py:64-66 | the signature is what follows the first colon and blank, with a substitute when nothing does |
| `Instream.UnpackPack` | src/document_core/malware.py:53-53 | lengths are written with the most significant byte first and read back |
| `Multipart.MultipartBody.Iterate` | src/document_core/connectors.py:203-209 | the pieces yielded make up the body, and their length is the declared content length |
| `Multipart.ParsesBack` | src/document_core/connectors.py:164-209 | a parser following section 5.1.1 of RFC 2046 and section 4.1 of RFC 7578 recovers exactly metadata and file bytes if and only if neither, read from the start of a line, holds the delimiter |
| `FormFields.ReceivedAsSent` | src/document_core/connectors.py:164-209 | a receiver reading header fields and quoted parameters on its own finds the metadata under "metadata" as JSON and the file under "file" with the given content type, both with their bytes, and the sanitized file name exactly when it has no backslash |
| `FormFields.LastParameter` | src/document_core/connectors.py:192-192 | a text without quotes in a quoted parameter is read back exactly when it has no backslash |
| `FormFields.RunReplaced` | src/document_core/connectors.py:169-169 | a whole run of line breaks and quotes becomes one underscore |
| `FormFields.CleanKept` | src/document_core/connectors.py:169-169 | everything else in the file name stays where it is |
| `Multipart.JsonSeparable` | src/document_core/connectors.py:171-184 | the JSON metadata never holds the delimiter |
| `Multipart.DashBoundaryAtStart` | src/document_core/connectors.py:164-209 | a file that starts with the dash-boundary does |
| `Multipart.SanitizeName` | src/document_core/connectors.py:169-169 | no line break or quote is left in the file name, and a name without them is unchanged |
| `Delivery.SafeIsComponent` | src/document_core/connectors.py:82-85 | any value becomes one path component of 1 to 120 characters without separators, blanks or leading dots, nor trailing ones unless cut off |
| `Delivery.SafeJoins` | src/document_core/connectors.py:82-85 | words keep their characters and whatever stands between two of them becomes one underscore, cut off at 120 |
| `Delivery.SafeBlank` | src/document_core/connectors.py:85-85 | a value of blanks, separators, underscores and dots becomes the substitute name |
| `Delivery.SplitJoins` | src/document_core/connectors.py:106-106 | a rendered path is taken apart at its slashes, losing nothing else |
| `Delivery.ResolveSteps` | src/document_core/connectors.py:106-107 | each part goes one level down and two dots one level up, never above the root of the file system |
| `Delivery.DefaultTemplateInside` | src/document_core/connectors.py:75-110 | the default template always renders to two components inside the root |
| `Delivery.FilesystemConnector.Deliver` | src/document_core/connectors.py:81-126 | the method has the effect the stability lemmas reason about: outside paths raise and write nothing |
| `Delivery.DefaultDelivery` | src/document_core/connectors.py:110-126 | under a template that renders to a directory and a job id, the document is written there under its own name, or with the id in its name when other bytes are in the way, and metadata.json beside it; no other file changes |
| `Delivery.FileTemplateDelivery` | src/document_core/connectors.py:110-126 | under a template that renders to a file name, the document takes that name, with the id when other bytes are in the way, and the metadata the stem of it |
| `Delivery.StemAndSuffix` | src/document_core/connectors.py:118-120 | the suffix starts at the last dot, unless that is the first or last character |
| `Delivery.WritesInside` | src/document_core/connectors.py:105-126 | whatever the template renders to, a delivery either writes strictly inside the root or raises and writes nothing |
| `Delivery.SuffixedNamesDiffer` | src/document_core/connectors.py:118-120 | suffixed names of jobs with different id prefixes differ |
| `Delivery.DeliverKeeps` | src/document_core/connectors.py:114-121 | another delivery leaves a given reference and what makes it repeatable as they are |
| `Delivery.ReferencesStable` | src/document_core/connectors.py:81-126 | whatever is delivered before and later, a reference keeps its job's bytes and a repeated delivery returns it again |
| `Delivery.OverwrittenExactly` | src/document_core/connectors.py:114-125 | a delivered document loses its bytes to a later delivery exactly when it lies where that one writes its metadata, or at its suffixed name while its own name is taken by other bytes |
| `Delivery.SuffixedNameOverwrites` | src/document_core/connectors.py:115-121 | a document bearing another job's suffixed name is overwritten |

## Left out

- The hash, encryption and password checks are ideal: the hash is injective where a lemma requires it (TamperEvident, HeadCommitsToHistory, StartupRedactionExactly, ReferencesStable), a sealed secret opens under its own key only.
- The database: each store method is one atomic step, the advisory lock makes audit operations atomic, and the rows SKIP LOCKED passes over are a parameter of the claim.
- WorkFiles.WorkFileOwnership: operations are atomic and run without crashes, because the code does not make a file move and the following save atomic; a processed snapshot is the claimed row, or its job was deleted and nobody owns its path since (DeletedTwinExactly and SharedStepExactly say what happens otherwise). Equal hash prefixes of different contents are excluded.
- IngestRace.StepExactly: of an attempt or a release only the changes of status, the move or drop of the file and the save of the row are steps, and each works on the row as it stands; stale rows are the subject of SharedFiles.
- SharedFiles.SharedStepExactly: a file operation and the save that follows it are one step.
- DeleteRace.DeleteLeavesNothing: one worker and one delete of one job; the first of the two saves of process is not needed, since a claimed job is already PROCESSING.
- Leases.LeaseExclusivity: worker saves after a lost lease are excluded by punctual heartbeats; they are covered by the row invariants and release conservation only. A heartbeat's last renewal after its worker has finished changes nothing and is not a step.
- Concurrency.ReleaseConservation: a release that fails before reaching the connector is counted as a call.
- Queue.ClaimsBounded: crashes are excluded; the code sets no limit on how often a job whose workers crash is taken over.
- Pipeline.DocumentPipeline.SaveReview: of a review's changes only type, routing and whether a named target is usable are kept; metadata, target, template and history are not, since no rule, state or file depends on them here.
- Delivery.FilesystemConnector.Deliver: the text the path template renders to is a parameter; only the two fields of the default template are followed (DefaultTemplateInside).
- Delivery.ReferencesStable: the premise that document, suffixed and metadata names are apart is stated per pair of deliveries; symbolic links and directories in the way of a document are not modelled.
- Logins.Throttled: logins are sequential, and no failure shares its timestamp with an earlier success of the user (TiesBreakLimit, CountsAllExactly).
- RetryAfter.RetryAfterExactly: the header is Latin-1 text; reading the date form is a parameter.
- FormFields.ReceivedAsSent: field names are compared as they are written, and the type of a part is not looked into.
- AuditChain.ChainedByAge: ids are compared by character code; the collation of the database is not modelled.
- Lower-casing and trimming of user names, Unicode case folding, and the text of error messages.
- Job events, duplicate notices, review history, heartbeat rows, timestamps of updates and delivery receipts: they are written beside the modelled state and read by no modelled operation.
- An exception outside the try block of process (an event that cannot be stored) ends the worker; it is the Crash step of the concurrent model.
- Extraction, classification, type detection, delivery rules and target lookup: arbitrary answers that may fail.
- HTTP and Graph connectors, token requests, health checks, licensing, user and channel administration, the operator console, migrations and settings loading.
