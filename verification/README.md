# Gateway protocols, modelled and proved

The gateway (`services/gateway`) keeps its state in Postgres rows, Redis keys and RabbitMQ queues, and
promises its clients things about that state that no single function shows: a crashed import converges, a
published outbox row is at the broker, a closed session is frozen, a logged-out token stays out. This project
models those protocols and proves the promises for every input, every run and every interleaving the
code allows.

Each component has one file:

| file | component |
|---|---|
| `Roster.dfy` | find-or-create of a student, course link and enrolment event; an import's row transactions |
| `BulkImport.dfy` | the import consumer: one delivery, its report and progress, any sequence of deliveries |
| `Outbox.dfy` | the transactional outbox as a protocol of any number of relay replicas and a broker |
| `OutboxLedger.dfy` | what that protocol spends: the bound on the work of all replicas together |
| `OutboxRelay.dfy` | one replica's drain loop among others, each of whose changes is a step of that protocol |
| `Attendance.dfy` | sessions, manual marks, identification, and the event log |
| `FaceEmbedding.dfy`, `FaceSearch.dfy` | cosine similarity and the nearest face on a roster |
| `RefreshTokens.dfy` | refresh-token rotation, under interleaving and one call at a time |
| `AccessRevocation.dfy` | access-token denylist, per-user cutoff and the acceptance decision |
| `Idempotency.dfy` | the Idempotency-Key middleware as a concurrent protocol on one key |
| `FaceTasks.dfy` | the face-task queues: delivery, retry, dead letter, crash and redelivery |
| `ConnectionRegistry.dfy` | the two-way index of WebSocket subscriptions |
| `Pagination.dfy` | offset pagination |
| `Options.dfy` | `Option` and `Result` |

`dafny verify dfyconfig.toml` checks everything.

## How it is modelled

Tables are sequences, maps and sets; a row's id is its insertion rank. One database transaction is one
step, except in the relay, whose transactions claim, publish row by row, and then commit or abort, with
other replicas' steps in between. What the outside world decides (the clock, a broker's confirm, a crash, a
failing database call, the AI service's answer) is a parameter or a nondeterministic choice. The
services and consumers are classes that update their state in place. Each of their methods is proved to
keep the component's invariant and to have exactly the effect of a function on the state, and the lemmas
are about runs of those functions. Where the code checks outside the transaction that acts on the check,
check and transaction are separate steps, and lemmas say that an atomic call is the two with nothing in
between.
Times are integers (milliseconds, or seconds where a token's claims use them); similarities are reals.

History that no column keeps is carried along where a property needs it: the times of a row's failed
attempts (`Outbox.Row.failures`), the login that a refresh token descends from (`RefreshTokens.Token.chain`).

## Where the code and its description part

The model follows the code in all of these.

* `services/gateway/src/redis/token-revocation.ts:27` promises to revoke tokens issued "at or before" the
  cutoff; the test at `services/gateway/src/http/middleware/authenticate.ts:24` is strict.
  `AccessRevocation.CutoffSecondNotCovered` says exactly which tokens get through.
* A logout-all outlives the tokens it covers only if the two configured lifetimes fit, and nothing checks
  that: `services/gateway/src/config/env.ts:35-36`. `AccessRevocation.LifetimesFitIff` gives the condition.
* The domain layer counts only a rotated token as reuse (`services/gateway/src/domain/auth.ts:31-33`), the
  service any revoked one: `RefreshTokens.ReuseRuleDiffersIff`.
* A refresh token is not single-use under concurrency: `RefreshTokens.RotatedTwiceIff` says exactly when. And a
  logout-all can be outrun by a refresh in flight: `RefreshTokens.RevokeAllOutrunIff`.
* The look-up does not stop two concurrent consumers from storing one image twice: `FaceTasks.StoredTwiceIff`.
* A mark can change a record of a session that was closed after the mark's check, and a second close can
  move its end time: `Attendance.ClosedSessionChangesIff` says exactly when.
* A logout-all whose clock read is older, but which reaches Redis later, takes back what another has
  revoked: `AccessRevocation.OvertakenLogoutAll`, and `AccessRevocation.LastArrivalDecides` for exactly when.
* `services/gateway/src/domain/attendance.ts:52` says that a manual record has no similarity. A manual
  re-mark keeps the earlier one, and its event does not carry it: `Attendance.LastEventSimilarity`.
* "Never reprocess a finished job" (`services/gateway/src/messaging/bulk-import-consumer.ts:75`) holds for
  the roster. But a delivery whose job lookup throws marks a completed job as failed:
  `BulkImport.CompletedSurvivesIff`.
* An import whose rows can fail transiently need not converge: `Roster.FaultsHealIff` says exactly when it does.
* An import message whose body is `null`, or that has no rows and reaches the processing or a throwing lookup,
  is never acknowledged: `BulkImport.BulkImportConsumer.Handle`.

## Model

| member | source | states |
|---|---|---|
| Roster.TrimMeaning | services/gateway/src/modules/courses/courses.service.ts:160-171 | for every string, trimming removes white space from the two ends, all of it and nothing else |
| Roster.SpacesAre | services/gateway/src/modules/courses/courses.service.ts:160-171 | white space is what ECMA-262 (sections 12.2 and 12.3) makes it, code point by code point |
| Roster.Database.ResolveAndLinkStudent | services/gateway/src/modules/courses/courses.service.ts:148-201 | the tables and the outcome after one transaction, error cases included, are those of the specification `Resolve`; an error leaves all three tables as they were |
| Roster.ResolveKeepsIntegrity | services/gateway/src/modules/courses/courses.service.ts:148-201 | unique numbers, e-mails and links and the foreign key survive every call; no row is changed or removed; every new link has exactly one event, in the same order |
| Roster.ResolveOutcome | services/gateway/src/modules/courses/courses.service.ts:148-201 | exactly when a call succeeds, from the input and the tables: an id that exists; or a number with text that a student has, or, with a name, a new student whose e-mail is free. And which of the four errors each other call gives |
| Roster.ResolveMeaning | services/gateway/src/modules/courses/courses.service.ts:184-200 | success means that the student asked for is on the course; `created` and `alreadyEnrolled` say exactly which rows the call added, and are never both set; a created student has exactly the trimmed fields |
| Roster.RunGrows | services/gateway/src/messaging/bulk-import-consumer.ts:109-133 | over any stretch of any run, students are only added, and every added student is linked to the course |
| Roster.CommittedRowIsSettled | services/gateway/src/modules/courses/courses.service.ts:148-201 | rerunning a committed row changes nothing, whatever later rows committed; a row that had failed either fails the same way or finds the student a later row created and linked |
| Roster.RerunPrefix | services/gateway/src/messaging/bulk-import-consumer.ts:109-133 | after a committed prefix of k rows, rerunning the first j ≤ k rows leaves the tables unchanged |
| Roster.RestartConverges | services/gateway/src/messaging/bulk-import-consumer.ts:57-133 | restarting from row 1 after k committed rows and running j of them gives the tables of one uninterrupted run of max(k, j) rows |
| Roster.RestartOutcome | services/gateway/src/messaging/bulk-import-consumer.ts:109-133 | what the report of a restarted delivery says of each row, in terms of the uninterrupted run |
| Roster.FaultsHealIff | services/gateway/src/messaging/bulk-import-consumer.ts:109-133 | for every roster and row list: a clean rerun repairs every run with transient faults (students, links and the events since, up to row order) if and only if no two rows that could create a student there ask for one e-mail under two numbers or for one number with different data |
| Roster.CleanRunHeals | services/gateway/src/messaging/bulk-import-consumer.ts:109-133 | without such a conflict, a clean run after any number of runs with any faults leaves exactly the students and links of one clean run, and has announced exactly the same links |
| Roster.EventsAnnounceNewLinks | services/gateway/src/modules/courses/courses.service.ts:190-199 | over any stretch of runs the events added announce exactly the links that were not there before |
| Roster.TransientFaultDiverges | services/gateway/src/messaging/bulk-import-consumer.ts:125-133 | with such a conflict, if only the second row commits at first, the student of the first never appears, however often and with whatever faults the import is rerun |
| Roster.SharedEmailLocksOut | services/gateway/src/modules/courses/courses.service.ts:168-180 | for two new students with one e-mail: the clean run creates the first; after a fault of its row no later run ever brings in its number |
| BulkImport.BulkImportConsumer.Handle | services/gateway/src/messaging/bulk-import-consumer.ts:57-93 | for every body, also `null` and one without rows, and every failure inside: whether the delivery is acknowledged, and the roster, jobs and frames it leaves |
| BulkImport.BulkImportConsumer.Process | services/gateway/src/messaging/bulk-import-consumer.ts:95-156 | the row loop, cut off at any job update or broadcast, leaves exactly the closed-form tables, job and frames; it ends normally exactly when none of them failed |
| BulkImport.BulkImportConsumer.MarkFailed | services/gateway/src/messaging/bulk-import-consumer.ts:158-180 | once the failure is recorded, every later delivery whose lookup works changes nothing; roster, other jobs and earlier frames are untouched |
| BulkImport.FailedDelivery | services/gateway/src/messaging/bulk-import-consumer.ts:82-91 | for every unfinished job and every delivery whose lookup or processing throws: the job reads FAILED with an error report if and only if that could be recorded, with the progress made, to the row; one failed frame with that number follows if and only if it could be broadcast; the tables are those of the rows committed before |
| BulkImport.NeverLeftUnfinished | services/gateway/src/messaging/bulk-import-consumer.ts:57-93 | an acknowledged delivery of a request whose failures can be recorded leaves its job finished: COMPLETED exactly if lookup and processing went through, else FAILED |
| BulkImport.IgnoredDeliveries | services/gateway/src/messaging/bulk-import-consumer.ts:57-80 | what a delivery ignores, and exactly which ones are never acknowledged: `null`, and a body without rows that would be processed or whose lookup throws |
| BulkImport.PointsMeaning | services/gateway/src/messaging/bulk-import-consumer.ts:135-143 | there are ⌈n/25⌉ progress points; the j-th is row 25·j or, at the end, row n; they strictly increase and lie within the rows |
| BulkImport.ReportAccounts | services/gateway/src/messaging/bulk-import-consumer.ts:101-133 | after every row of every run, the report's tallies account for the tables: `created` is the number of new students, `created + enrolled` the number of new links and of new events; the four counts sum to the rows processed |
| BulkImport.LineTellsTruth | services/gateway/src/messaging/bulk-import-consumer.ts:118-133 | of every row, on any tables: the line reads created if and only if a student was added, enrolled if and only if only a link was, already if and only if the transaction succeeds and the student was on the course before, failed if and only if the transaction fails, and then which error it carries |
| BulkImport.ReportTellsTruth | services/gateway/src/messaging/bulk-import-consumer.ts:109-133 | so does every line of every report, for the tables just before and just after its row |
| BulkImport.CompletedDelivery | services/gateway/src/messaging/bulk-import-consumer.ts:95-156 | an undisturbed delivery completes the job; each line of its report says what its row did to the tables; the final counts, and those of the one progress frame per chunk, are the numbers of lines of each kind up to there |
| BulkImport.DeliveryExtendsPrefix | services/gateway/src/messaging/bulk-import-consumer.ts:57-156 | any delivery, completed, failed or crashed, started on the tables of a prefix of the uninterrupted run, leaves the tables of a prefix at least as long |
| BulkImport.ImportConverges | services/gateway/src/messaging/bulk-import-consumer.ts:57-156 | after any number of deliveries, crashed at any row or failed at any operation, the tables are those of a prefix of one uninterrupted import; when the job reads COMPLETED they are exactly those of the whole |
| BulkImport.FinishedStaysFinished | services/gateway/src/messaging/bulk-import-consumer.ts:75-80 | once a job has finished, any number of further deliveries whose job lookup works, with whatever faults, leave job, report, roster, events and frames unchanged |
| BulkImport.CompletedSurvivesIff | services/gateway/src/messaging/bulk-import-consumer.ts:68-91 | a completed job stays completed if and only if the lookup works or the failure cannot be recorded; its roster always survives |
| Outbox.HandlingKeepsRowValid | services/gateway/src/messaging/outbox-relay.ts:79-99 | publishing, or charging a failure to, a row that was due keeps attempts, status, failure times and next due time consistent |
| Outbox.ParkedNotBefore | services/gateway/src/messaging/outbox-relay.ts:85-97 | a FAILED row has failed exactly maxAttempts times, the last time no sooner than the sum of all the delays in between |
| Outbox.DefaultParkingDelay | services/gateway/src/config/env.ts:46 | with the default of 10 attempts, that is at least 302 seconds |
| Outbox.BackoffMeaning | services/gateway/src/messaging/outbox-relay.ts:85-97 | the delays are 1, 2, 4, 8, 16 and 32 seconds, and 60 from then on: exactly, so also at most |
| Outbox.InsertMeaning | services/gateway/src/messaging/outbox.ts:19-31 | a new row is last in the table, pending, unfailed and due at once |
| Outbox.PublishMeaning | services/gateway/src/messaging/outbox-relay.ts:79-99 | a publish sends the batch's next row and no other; a confirm makes it PUBLISHED and changes nothing else of it; any other answer adds one failed attempt at that time, due after the backoff or, at the maximum, FAILED |
| Outbox.NoSoundCopy | services/gateway/src/messaging/outbox-relay.ts:70-84 | a row about to be published is confirmed to no transaction that has not aborted, so replicas never publish one row twice at once |
| Outbox.NextKeepsInv | services/gateway/src/messaging/outbox-relay.ts:67-105 | every step of every replica keeps the whole invariant: valid rows, disjoint live claims, one sound confirmed copy per delivered row |
| Outbox.EveryRunKeepsInv | services/gateway/src/messaging/outbox-relay.ts:67-105 | so does every run from empty tables |
| Outbox.RelaySafety | services/gateway/src/messaging/outbox-relay.ts:67-105 | for any number of replicas, aborting anywhere: live batches are disjoint and pending; every message at the broker is a committed row; confirmed copies of a row are 1 if it is PUBLISHED or acked in a live transaction, plus the size of the set of aborted transactions that got its confirm |
| Outbox.TerminalRowsAbsorb | services/gateway/src/messaging/outbox-relay.ts:70-99 | along every run, a PUBLISHED or FAILED row never changes again |
| Outbox.AttemptNotBefore | services/gateway/src/messaging/outbox-relay.ts:70-97 | whenever a row with k > 0 failures is about to be published, successfully or not, the backoff after its last failure is over |
| Outbox.RowLifeCycle | services/gateway/src/messaging/outbox-relay.ts:79-99 | in every run: PENDING rows have attempts left and FAILED ones none; failure k+1 comes at least min(60 s, 2^k s) after failure k, and so does every other attempt; parking takes the sum of the delays |
| OutboxLedger.HandlingLowersPotential | services/gateway/src/messaging/outbox-relay.ts:78-101 | handling distinct rows, each of which loses a chance, lowers the attempts left over all rows by at least their number |
| OutboxLedger.CommitPays | services/gateway/src/messaging/outbox-relay.ts:78-103 | a commit, whatever other transactions are live, handles exactly its claimed rows, uses up a chance for each, and leaves none of them due as of its claim |
| OutboxLedger.StepAdvances | services/gateway/src/messaging/outbox-relay.ts:67-105 | no step of any replica but an insert lets the rows handled plus the attempts left grow, un-handles a batch, or makes a row due sooner |
| OutboxLedger.WorkIsPaid | services/gateway/src/messaging/outbox-relay.ts:67-105 | in every run of any number of replicas, aborts and inserts included: rows handled by committed batches plus attempts left are at most maxAttempts for each row ever written |
| OutboxLedger.StretchIsPaid | services/gateway/src/messaging/outbox-relay.ts:46-64 | in every stretch without inserts, whatever replicas do in it: rows handled by committed batches plus the attempts left at its end are at most the attempts left at its start |
| OutboxRelay.FirstClaimable | services/gateway/src/messaging/outbox-relay.ts:70-76 | the query returns due rows that no replica has locked, in order, at most `limit`, and leaves such a row out only if the batch is full of older ones |
| OutboxRelay.ClaimableMeaning | services/gateway/src/messaging/outbox-relay.ts:70-76 | the query in terms of the columns it compares: the rows that are PENDING, due and not locked, oldest first, up to the limit, and no such row is skipped |
| OutboxRelay.BatchIsEnabled | services/gateway/src/messaging/outbox-relay.ts:78-103 | each publish of the loop, whatever the broker answers, the commit after the last and an abort at any point are enabled steps of the protocol |
| OutboxRelay.PublishAnswered | services/gateway/src/messaging/outbox-relay.ts:79-99 | publishing the next row of a batch charges it with exactly what the broker answered |
| OutboxRelay.CommitAnswers | services/gateway/src/messaging/outbox-relay.ts:78-103 | committing a fully published batch gives every row of it the state that its answer asks for |
| OutboxRelay.CommitLeavesLocked | services/gateway/src/messaging/outbox-relay.ts:70-103 | after the commit of a batch that was not full, the only rows still due as of its query are those other replicas had locked then |
| OutboxRelay.OutboxRelay.DrainBatch | services/gateway/src/messaging/outbox-relay.ts:67-105 | for every answer the broker may give to each publish and every await at which something may throw, with other replicas stepping in at each: on a normal return a row of the batch is PUBLISHED if its publish was confirmed, and else has one more failed attempt, recorded at its time and due again after the backoff; if it throws, the batch is as the query found it; a batch that is not full leaves due only what others had locked |
| OutboxRelay.OutboxRelay.Tick | services/gateway/src/messaging/outbox-relay.ts:46-64 | the unbounded loop terminates, whatever the clock, the broker and the other replicas do, within ⌊attempts left/batchSize⌋ + 1 batches; every row of a committed batch whose publish was confirmed is PUBLISHED at the end; on normal exit each due, unlocked row of the last query became what its answer makes of it, and only rows locked by others then are still due as of then; `draining` is restored on every path |
| Attendance.AttendanceService.OpenSession | services/gateway/src/modules/attendance/attendance.service.ts:53-58 | keeps the invariant; success adds one open session that has no records, refusal changes nothing |
| Attendance.AttendanceService.CloseSession | services/gateway/src/modules/attendance/attendance.service.ts:82-91 | succeeds if and only if the actor is an admin or the professor of the session's course and `isSessionOpen` holds; from then on every mark and every identification of it fails and changes nothing; other sessions, records and log are untouched |
| Attendance.AttendanceService.UpsertAndRecord | services/gateway/src/modules/attendance/attendance.service.ts:109-136 | one transaction: the record for the unique key, created or updated in place, and one event about it |
| Attendance.AttendanceService.MarkAttendance | services/gateway/src/modules/attendance/attendance.service.ts:98-143 | state and result of every path of a manual mark |
| Attendance.AttendanceService.IdentifyAndRecord | services/gateway/src/modules/attendance/attendance.service.ts:170-245 | state and result of every path of an identification: AI failures, no face, failing search, nobody enrolled, below the threshold, failing transaction, match |
| Attendance.AccessRule | services/gateway/src/modules/attendance/attendance.service.ts:39-51 | marking, closing and identifying are answered not found exactly for a session that does not exist, and forbidden exactly to an actor who is neither an admin nor the professor of its course; no refusal changes anything |
| Attendance.OpenMeaning | services/gateway/src/modules/attendance/attendance.service.ts:53-58 | who may open a session of which course, and the session that results: of that course, open, starting now, without an end |
| Attendance.CloseMeaning | services/gateway/src/modules/attendance/attendance.service.ts:82-91 | closing changes status and end time of the one session and nothing else; a closed one is a conflict |
| Attendance.MarkRefusals | services/gateway/src/modules/attendance/attendance.service.ts:98-143 | why an allowed mark fails: a conflict, an unknown student or a failing transaction, each exactly when |
| Attendance.OneEventPerCommit | services/gateway/src/modules/attendance/attendance.service.ts:107-136 | a mark or identification that commits appends exactly one event; any other changes nothing at all |
| Attendance.MarkMeaning | services/gateway/src/modules/attendance/attendance.service.ts:98-143 | in every valid state a mark succeeds if and only if it is allowed, `isSessionOpen` holds, the student exists and the transaction commits; it keeps the id, capture time and similarity of a record that was there, gives a new one a fresh id, touches no other record, and its event agrees with the record |
| Attendance.IdentifyRefusals | services/gateway/src/modules/attendance/attendance.service.ts:170-206 | why an allowed identification fails: closed session, AI service down, AI error, no face, faces of another length, or a match whose transaction fails, each exactly when |
| Attendance.IdentifyMeaning | services/gateway/src/modules/attendance/attendance.service.ts:194-245 | identification matches if and only if some face on the roster reaches the threshold, and then a student with the greatest similarity; it reports that greatest similarity, matched or not, and none exactly for a roster without faces |
| Attendance.IdentifyWrites | services/gateway/src/modules/attendance/attendance.service.ts:208-236 | a match writes the one record of session and student, PRESENT by FACE with that similarity; the record keeps id and capture time if it was there, and gets a fresh id otherwise; the event says what the record says; without a match nothing is written |
| Attendance.LogDeterminesTable | services/gateway/src/modules/attendance/attendance.service.ts:98-143 | after every run, with checks, searches and transactions of any calls interleaved at will, replaying the event log gives exactly the attendance table |
| Attendance.SimilarityIsLastFace | services/gateway/src/modules/attendance/attendance.service.ts:110-133 | after every interleaved run, a record has a similarity if and only if the log holds a FACE event of its key, and then it is that of the last one: marks by hand never touch it |
| Attendance.LastEventSimilarity | services/gateway/src/modules/attendance/attendance.service.ts:110-133 | the last event alone gives a manually marked record's similarity if and only if the mark did not cover an identified face |
| Attendance.MarkIsTwoSteps | services/gateway/src/modules/attendance/attendance.service.ts:98-143 | an atomic mark is its check followed at once by its transaction |
| Attendance.CloseIsTwoSteps | services/gateway/src/modules/attendance/attendance.service.ts:82-91 | an atomic close is its check followed at once by its update |
| Attendance.IdentifyIsThreeSteps | services/gateway/src/modules/attendance/attendance.service.ts:170-245 | an atomic identification is its check, its search and its transaction with nothing in between |
| Attendance.EveryRunKeepsInv | services/gateway/src/domain/attendance.ts:58-60 | in every reachable state, calls in flight included, OPEN means no end time, so the service's check agrees with `isSessionOpen`; record ids are unique; every FACE record reaches the threshold |
| Attendance.CheckedWhenOpen | services/gateway/src/modules/attendance/attendance.service.ts:103-106 | in every run, every call in flight found its session open at the step that made its check |
| Attendance.ClosedSessionChangesIff | services/gateway/src/modules/attendance/attendance.service.ts:82-118 | under every interleaving, a step after a session was closed changes its records if and only if it commits a differing record for a call whose check came before the close, and changes the session row if and only if it commits another such close with another time |
| Attendance.ClosedSessionIsFrozen | services/gateway/src/modules/attendance/attendance.service.ts:82-91 | a session that is closed with no call on it in flight never changes again, and no record of it is ever added or changed |
| Attendance.LateWriteAfterClose | services/gateway/src/modules/attendance/attendance.service.ts:103-118 | it does happen: in every state in which a mark would succeed with a new status, check, close by another caller and commit change a record of the closed session |
| Attendance.ClosedTwice | services/gateway/src/modules/attendance/attendance.service.ts:83-90 | two callers that both check before either writes both close a session, and the second moves its end time |
| FaceEmbedding.CosineSimilarity | services/gateway/src/domain/face-embedding.ts:53-71 | the loop's three accumulators give the cosine of the two vectors, 0 for a zero vector, an error exactly on unequal lengths; the value lies in [-1, 1] |
| FaceEmbedding.CosineMeaning | services/gateway/src/domain/face-embedding.ts:46-70 | the similarity times the two lengths is the inner product; it is 0 where a length is 0 |
| FaceEmbedding.DotMeaning | services/gateway/src/domain/face-embedding.ts:59-66 | the inner product is the sum of the products of coordinates |
| FaceEmbedding.CauchySchwarz | services/gateway/src/domain/face-embedding.ts:46-70 | (a·b)² ≤ (a·a)(b·b) for vectors of every length |
| FaceEmbedding.CosineRange | services/gateway/src/domain/face-embedding.ts:46-70 | similarity lies in [-1, 1] for all vectors of equal length |
| FaceEmbedding.CosineSymmetric | services/gateway/src/domain/face-embedding.ts:53-71 | similarity does not depend on the order of the vectors |
| FaceEmbedding.CosineScale | services/gateway/src/domain/face-embedding.ts:53-71 | scaling a vector by k ≠ 0 keeps the similarity for k > 0 and negates it for k < 0 |
| FaceEmbedding.CosineSelf | services/gateway/src/domain/face-embedding.ts:53-71 | a non-zero vector has similarity 1 with itself and -1 with its negation |
| FaceEmbedding.CosineIsOneIff | services/gateway/src/domain/face-embedding.ts:53-71 | two non-zero vectors have similarity 1 if and only if one is a positive multiple of the other |
| FaceSearch.CandidatesMeaning | services/gateway/src/modules/faces/face.repository.ts:96-100 | the candidates are exactly the embeddings of students on the roster, each once, in table order, with its similarity |
| FaceSearch.NearestMeaning | services/gateway/src/modules/faces/face.repository.ts:101-102 | the ordered, limited result is a selection of the candidates, as many as asked for and available, in falling similarity, and nothing left out is closer |
| FaceSearch.ClosestFace | services/gateway/src/modules/faces/face.repository.ts:87-109 | with limit 1: nothing if and only if no student on the roster has a face, else a face no other on the roster exceeds |
| RefreshTokens.AuthService.CreateRefreshToken | services/gateway/src/modules/auth/auth.service.ts:32-50 | keeps the chain invariant; the new token is active exactly until it expires and belongs to no earlier chain; earlier tokens are untouched |
| RefreshTokens.AuthService.RefreshToken | services/gateway/src/modules/auth/auth.service.ts:91-139 | keeps the chain invariant; tokens and result of every path are those of `Refresh`, whose meaning `RefreshMeaning` states |
| RefreshTokens.AuthService.Logout | services/gateway/src/modules/auth/auth.service.ts:148-154 | keeps the chain invariant; afterwards no refresh with the presented token ever succeeds; no other token and no earlier revocation time changes |
| RefreshTokens.AuthService.LogoutAll | services/gateway/src/modules/auth/auth.service.ts:167-171 | keeps the chain invariant; afterwards no token of the user is unrevoked; tokens of others and earlier revocation times are untouched |
| RefreshTokens.LinksInEveryRun | services/gateway/src/modules/auth/auth.service.ts:91-139 | under every interleaving of reads and writes: a replaced token is revoked, its successor is a later token of the same user, no two tokens share a successor, and revocation is never cleared |
| RefreshTokens.SuccessorsNeverCycle | services/gateway/src/domain/auth.ts:5-7 | following successors strictly advances, so it never returns to a token |
| RefreshTokens.RotatedTwiceIff | services/gateway/src/modules/auth/auth.service.ts:91-132 | under every interleaving, a token is rotated twice if and only if two refreshes that found it fit for rotation overlap, each reading before the other writes |
| RefreshTokens.ReadBeforeRotation | services/gateway/src/modules/auth/auth.service.ts:93-109 | of two rotations of one token, the later one's read came before the earlier one's write |
| RefreshTokens.DoubleRotation | services/gateway/src/modules/auth/auth.service.ts:93-132 | the shortest such run: it leaves two unrevoked tokens in one chain |
| RefreshTokens.RevokeAllHolds | services/gateway/src/modules/auth/auth.service.ts:102-108 | under every interleaving: after a logout-all or the response to a reused token, with no refresh of the user between its read and its write, no later state before their next login has an unrevoked token of theirs |
| RefreshTokens.RevokeAllOutrunIff | services/gateway/src/modules/auth/auth.service.ts:93-132 | the first step after it that gives the user an unrevoked token is a login or the write of a refresh that had read before it, and each of those does |
| RefreshTokens.OutrunLogoutAll | services/gateway/src/modules/auth/auth.service.ts:167-171 | the shortest such run: read, logout-all, write |
| RefreshTokens.RefreshMeaning | services/gateway/src/modules/auth/auth.service.ts:91-139 | refresh succeeds if and only if the token exists, is unrevoked, unexpired and of an active user, which is what `isRefreshTokenActive` says: it is revoked now and linked to its one new successor, nothing else changes. Which error each other call gets: reuse before expiry before a disabled account. A reused token revokes now exactly what was left of its user's; other refusals change nothing |
| RefreshTokens.LogoutMeaning | services/gateway/src/modules/auth/auth.service.ts:148-171 | a logout revokes now the presented token, a logout-all every unrevoked token of the user; all other tokens, and earlier revocation times, stay |
| RefreshTokens.ReuseRuleDiffersIff | services/gateway/src/domain/auth.ts:31-33 | service and domain agree on what reuse is, except exactly for tokens revoked without a successor |
| RefreshTokens.ChainsInEveryRun | services/gateway/src/modules/auth/auth.service.ts:32-139 | with atomic calls, in every run each login's tokens form one chain of one user in which all but the last are replaced |
| RefreshTokens.OneUnrevokedPerChain | services/gateway/src/modules/auth/auth.service.ts:117-132 | of two tokens of one chain the earlier is revoked: only the tail can be unrevoked |
| RefreshTokens.CallsAreRuns | services/gateway/src/modules/auth/auth.service.ts:91-139 | calls that run one at a time are runs of the interleaved model in which each refresh is its read followed at once by its write |
| RefreshTokens.AtomicCallsRotateOnce | services/gateway/src/modules/auth/auth.service.ts:91-132 | such calls never overlap, so no token is rotated twice |
| RefreshTokens.RotatedAtMostOnce | services/gateway/src/modules/auth/auth.service.ts:101-109 | after a successful refresh, every later presentation of the same token is answered as reuse |
| RefreshTokens.OneTailPerLogin | services/gateway/src/modules/auth/auth.service.ts:32-139 | in every run a user has exactly as many chain ends as logins and registrations |
| RefreshTokens.UnrevokedBoundedByLogins | services/gateway/src/modules/auth/auth.service.ts:32-139 | a user's unrevoked tokens never exceed their logins and registrations |
| AccessRevocation.RevocationStore.LogoutToken | services/gateway/src/modules/auth/auth.service.ts:155-160 | from its arrival on the token is expired or denylisted at every instant; no other entry changes |
| AccessRevocation.RevocationStore.LogoutEverywhere | services/gateway/src/modules/auth/auth.service.ts:172-177 | from its arrival on the caller's token is expired or denylisted and, if the lifetimes fit, all earlier tokens of the user are expired or cut off, at every instant; entries of other tokens and users do not change |
| AccessRevocation.RevocationStore.Authenticate | services/gateway/src/http/middleware/authenticate.ts:17-34 | whatever revocations made the store: a token that was ever logged out is not accepted; if the lifetimes fit, a token is accepted if and only if it is signed, unexpired, never logged out, and not covered by the last logout-all to arrive |
| AccessRevocation.EntryOutlivesToken | services/gateway/src/redis/token-revocation.ts:15-19 | despite rounding down the clock and rounding up the lifetime, an entry never lapses before its token expires |
| AccessRevocation.KeepMeaning | services/gateway/src/redis/token-revocation.ts:15-36 | an entry lives for whole seconds, at least one, no shorter than asked and less than a second longer |
| AccessRevocation.LogoutWrites | services/gateway/src/modules/auth/auth.service.ts:155-178 | an expired token writes no entry; another one entry, for what is left of it rounded up to a second; a logout-all also the cutoff of the second it read, for the refresh lifetime |
| AccessRevocation.LogoutDenies | services/gateway/src/modules/auth/auth.service.ts:155-160 | at every instant after a logout the token is expired or denylisted |
| AccessRevocation.LogoutIsFinal | services/gateway/src/modules/auth/auth.service.ts:148-178 | in every run of later logouts and logout-alls, by anyone, in any order of clock reads, a logged-out token is never accepted again |
| AccessRevocation.CutoffOutlivesTokens | services/gateway/src/redis/token-revocation.ts:28-36 | if the lifetimes fit, a cutoff lasts until every token issued before it has expired |
| AccessRevocation.LastLogoutAllStays | services/gateway/src/redis/token-revocation.ts:28-36 | after every run the store holds the cutoff of the last logout-all of the user to arrive, whatever the earlier ones read |
| AccessRevocation.LastArrivalDecides | services/gateway/src/modules/auth/auth.service.ts:167-178 | after every run, a live token that is not denylisted is rejected if and only if the last logout-all to arrive carries a second greater than its iat and its entry is still there; if the lifetimes fit it always is |
| AccessRevocation.OvertakenLogoutAll | services/gateway/src/modules/auth/auth.service.ts:172-173 | two concurrent logout-alls, the one with the older clock read arriving last: a token that was rejected is accepted again |
| AccessRevocation.LogoutAllIsFinal | services/gateway/src/modules/auth/auth.service.ts:167-178 | after a logout-all in second c, tokens issued before c stay cut off through every run of further revocations in which no logout-all of the user that read an earlier second arrives |
| AccessRevocation.AcceptedIff | services/gateway/src/http/middleware/authenticate.ts:17-34 | which tokens are accepted after every run of revocations, in terms of that run alone |
| AccessRevocation.VerdictIff | services/gateway/src/http/middleware/authenticate.ts:17-34 | after every run of revocations, which of the three refusals a token gets or whether it is accepted, in terms of that run: invalid or expired before logged out before cut off |
| AccessRevocation.CutOffIsRejected | services/gateway/src/http/middleware/authenticate.ts:23-26 | a token that is cut off is accepted at no later instant |
| AccessRevocation.LifetimesFitIff | services/gateway/src/config/env.ts:35-36 | a logout-all holds, for every token and clock, if and only if the access lifetime, with the lag of signing, is at most one second longer than the refresh lifetime |
| AccessRevocation.CutoffSecondNotCovered | services/gateway/src/http/middleware/authenticate.ts:24 | right after a logout-all in second c, a live token that is not denylisted is accepted if and only if it was issued in second c or later |
| Idempotency.IdempotencyKey.Lookup | services/gateway/src/http/middleware/idempotency.ts:53-62 | keeps the invariant; refuses if and only if some request owns the lock, replays if and only if some handler run has succeeded and its answer is stored, and then exactly that answer; never changes the key |
| Idempotency.IdempotencyKey.Acquire | services/gateway/src/http/middleware/idempotency.ts:64-67 | keeps the invariant; takes the lock if and only if nobody owns it and no success is stored, and then is its only owner; otherwise leaves the key alone |
| Idempotency.IdempotencyKey.Answer | services/gateway/src/http/middleware/idempotency.ts:24-35 | keeps the invariant; until its cache write arrives the request stays the only owner of a pending key, and no other handler run has succeeded |
| Idempotency.IdempotencyKey.CacheOrRelease | services/gateway/src/http/middleware/idempotency.ts:26-34 | keeps the invariant; nobody owns the lock any more; exactly after a code from 200 to 299 the answer is cached and every request that asks is answered with it; otherwise the key is gone and the next request that tries gets the lock |
| Idempotency.StepKeepsInv | services/gateway/src/http/middleware/idempotency.ts:24-71 | every command of every request keeps the protocol's invariant |
| Idempotency.EveryRunKeepsInv | services/gateway/src/http/middleware/idempotency.ts:38-71 | so does every interleaving of any number of requests |
| Idempotency.OneOwnerOneSuccess | services/gateway/src/http/middleware/idempotency.ts:38-71 | in every run the key is pending if and only if a request's handler or its cache write is running, at most one request ever owns it at a time, at most one handler run ends 2xx, and only such an answer is ever cached |
| Idempotency.ReplaysAreFaithful | services/gateway/src/http/middleware/idempotency.ts:59-61 | every replayed code and body is that of the one handler run that succeeded |
| Idempotency.SuccessIsPermanent | services/gateway/src/http/middleware/idempotency.ts:53-62 | once a success is cached no later step changes it, and every later GET is answered with it |
| Idempotency.OnlyTheOwnerReleases | services/gateway/src/http/middleware/idempotency.ts:24-67 | while the lock is held only the owner's own write changes the key; a request answered 409 never does |
| FaceTasks.FaceTaskConsumer.HandleMessage | services/gateway/src/messaging/face-task-consumer.ts:42-74 | handling a message, look-up and insert included, and then acknowledging it, or crashing just before, is exactly a run of steps of the queue protocol |
| FaceTasks.FaceTaskConsumer.Process | services/gateway/src/messaging/face-task-consumer.ts:76-99 | stores the embedding if and only if there is one, the look-up does not find the image and the insert arrives, also when its reply is lost; fails if and only if a call throws |
| FaceTasks.DeliveryMeaning | services/gateway/src/messaging/face-task-consumer.ts:42-99 | what handling a delivery comes to: the image is stored exactly if there is an embedding, none of that student and image is stored, and the insert arrives; a failed call leaves one copy with one more attempt, delayed or, at the cap, dead; nothing else changes |
| FaceTasks.MessageMoves | services/gateway/src/messaging/face-task-consumer.ts:42-74 | no step changes a message's task or attempts; each message moves only along the queues' edges; a new message is a new task's, or a copy that waits or is dead |
| FaceTasks.RetriesWait | services/gateway/src/messaging/topology.ts:35-44 | no retry comes at once: in every run a message that is not a task's first has waited out its delay, is still waiting, or is dead |
| FaceTasks.AttemptsBounded | services/gateway/src/messaging/face-task-consumer.ts:58-71 | in every run messages outside the dead queue carry fewer than the maximum attempts and dead ones exactly the maximum |
| FaceTasks.StoredTwiceIff | services/gateway/src/messaging/face-task-consumer.ts:86-97 | under every interleaving of consumers, retries and crashes, an image is stored twice for its student if and only if two handlings of it overlap, each looking before the other inserts |
| FaceTasks.SerialStoresOnce | services/gateway/src/messaging/face-task-consumer.ts:86-97 | so if every insert follows its own look-up at once, no image is ever stored twice for a student |
| FaceTasks.StepChange | services/gateway/src/messaging/face-task-consumer.ts:42-74 | how one step changes any weighted sum over all messages: the accounting that conservation, draining and the delivery bound share |
| FaceTasks.CopiesConserved | services/gateway/src/messaging/face-task-consumer.ts:58-72 | in every run each task has exactly one copy plus one per crash between its re-queue and its acknowledgement: none is lost, and none duplicated otherwise |
| FaceTasks.EveryTaskEnds | services/gateway/src/messaging/face-task-consumer.ts:54-72 | when nothing is left to do, each task has ended exactly once, done or dead, plus once per such crash |
| FaceTasks.WeightStep | services/gateway/src/messaging/topology.ts:35-44 | every delivery, handling, acknowledgement and expiry lowers a potential by at least one; only new tasks and crashes raise it, by a fixed amount |
| FaceTasks.WorkIsBounded | services/gateway/src/messaging/topology.ts:35-44 | a run with finitely many tasks and crashes does boundedly many deliveries, handlings, acknowledgements and expiries |
| FaceTasks.WorkGoesOn | services/gateway/src/messaging/topology.ts:35-44 | after every run, as long as not every message has ended, one of those steps can be made: so the queues drain |
| FaceTasks.DeliveriesBounded | services/gateway/src/messaging/face-task-consumer.ts:42-74 | a task is delivered at most MAX times, plus MAX for every crash that redelivers it |
| ConnectionRegistry.PairsDetermineIndex | services/gateway/src/ws/connection-registry.ts:17 | with no empty set stored, two topic indexes are equal if and only if they stand for the same set of (topic, socket) pairs |
| ConnectionRegistry.ConnectionRegistry.Subscribers | services/gateway/src/ws/connection-registry.ts:52-53 | looking a topic up gives exactly the sockets paired with it |
| ConnectionRegistry.ConnectionRegistry.Subscribe | services/gateway/src/ws/connection-registry.ts:19-27 | adds one pair; both indexes keep agreeing and no empty set is stored |
| ConnectionRegistry.ConnectionRegistry.Unsubscribe | services/gateway/src/ws/connection-registry.ts:29-35 | removes one pair, known or not, under the same invariant |
| ConnectionRegistry.ConnectionRegistry.Remove | services/gateway/src/ws/connection-registry.ts:38-46 | erases every pair of the socket and no other |
| ConnectionRegistry.ConnectionRegistry.Broadcast | services/gateway/src/ws/connection-registry.ts:49-58 | writes the message exactly once to each open subscriber, to nobody else, and changes no subscription |
| Pagination.TotalPagesMeaning | services/gateway/src/http/pagination.ts:17 | `totalPages` pages hold all rows, and one page fewer would not |
| Pagination.PagesPartition | services/gateway/src/http/common.schemas.ts:15-17 | for every list and page size ≥ 1, pages 1 to `totalPages` concatenate to the list; later pages are empty, earlier ones full, and the last is empty only if the list is |

## Left out

- The web application, routing, controllers, serializers, request schemas, role tables, logging, metrics,
  tracing, start-up and shutdown, and plain create/read/update/delete of users, students and courses.
- The Python inference service. Its answer is a parameter.
- Library internals: JWT signing (a validity flag), argon2, HMAC and SHA (injective), the circuit breaker.
- Broker connections, reconnects and lost channels. Queues are durable and lose nothing they were handed;
  `sendToQueue` is called without a confirm in the source.
- Payloads a face-task consumer cannot parse; it discards them, as the import consumer does in the model.
- Redis being down: the denylist, the cutoff and the Idempotency-Key fail open by design.
- The 24-hour expiry of an idempotency key, an owner that dies, and a handler that never answers with JSON.
- Clocks that run backwards or differ between processes.
- Rounding: similarities are reals and the square root is any function that is one.
- Zero vectors, to which pgvector's cosine distance is not a number (a precondition of the search excludes them),
  and recall of an approximate index: the search is read as an exact scan.
- Deletion of courses, sessions or students, and the cascades it triggers.
- `createBulkImportJob`: one transaction with two inserts.
- The text of error messages, in reports, frames and `lastError`.
- The ordering of outbox rows with equal `created_at`. Rank stands for creation time.
- The relay's query compares with the clock at the query; PostgreSQL's `now()` is the start of its transaction, a
  moment earlier.
- BulkImport.ImportConverges: assumes one import at a time, no other writer to the roster in between, and rows
  that do not fail transiently; `Roster.FaultsHealIff` says exactly when transient faults do no lasting harm.
- BulkImport.FinishedStaysFinished: assumes that job lookups work; `BulkImport.CompletedSurvivesIff` says what
  happens otherwise.
- OutboxRelay.OutboxRelay.Tick: no insert while the tick runs; `Outbox.RelaySafety` and `OutboxLedger.WorkIsPaid`
  cover inserts at any time.
- RefreshTokens.RotatedAtMostOnce: assumes atomic calls; `RefreshTokens.RotatedTwiceIff` covers all others.
- AccessRevocation.RevocationStore.LogoutEverywhere: its two Redis writes arrive at one instant.
- The two clock reads of signing, for iat and for exp: an upper bound on the seconds between them is a parameter.
- AccessRevocation.LogoutAllIsFinal: requires lifetimes that fit; `AccessRevocation.LifetimesFitIff` shows it
  needs that.
- The refresh-token half and the access-token half of `logout` and `logoutAll` are in separate modules; no
  property spans both.
