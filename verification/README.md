# Idelium API coordination logic, verified

A Dafny model of the parts of the Idelium Go API (and of two of its fixture
scripts) whose correctness depends on many calls, clients or documents rather
than on one function body. `dafny verify dfyconfig.toml` checks everything.

- **Parallel runs** (`Runs`, `ParallelRun`, `RunEffects`, `RunInvariants`,
  `RunLeases`, `RunAdmission`, `RunReports`). A run row holds a status, five counters, an
  aggregate code and a map of workers with leases. Claim, update, heartbeat and
  cancel each lock the row, change the map, recount and commit. `Runs` gives each
  operation as one atomic step on values; `ParallelRun.Run` is the row as the
  repository updates it, and every method is proved equal to its step. `RunEffects`
  says exactly when each step is accepted and what it changes; the other modules prove what holds after every interleaving of clients with arbitrary
  clocks.
- **Run tokens, two-transaction claims, worker tokens** (`RunTokens`, `RunClaims`,
  `RunnerTokens`). A claim spends its token in one transaction and takes the row in
  another; other clients act in between. The worker token a runner's claim returns
  guards its heartbeats and reports.
- **Matrix launches** (`Matrix`, `RunStore`). Axes become a cartesian product,
  each combination a run under a derived idempotency key.
- **Deliveries** (`Deliveries`, `DeadLetters`, `DeliveryQueue`). Attempts, backoff
  and dead letters with any number of consumers; how often a delivery is tried; and
  which deliveries the polling worker reaches.
- **Nonce cache** (`NonceCache`), **asset reviews** (`Reviews`), **impact search**
  (`References`), **snapshot diff** (`SnapshotDiff`), **endpoint secrets**
  (`Secrets`), **golden fixtures** (`Fixtures`, `FixtureDocuments`, `FixtureRules`).

Objects the source mutates are classes, its loops are methods with invariants;
each such method is proved against a function on values, and the theorems are
about those functions. `Wrappers` and `Text` hold shared vocabulary.

## What the code does not promise

Where a property one would expect is false, the code is modelled as it is, one
lemma shows a failing run, and another gives the exact condition.

- *Active workers never exceed the requested concurrency.*
  docs/operations/parallel-run-claim-cutover.md:3-7 says that the locked check
  keeps competing requests out of one slot and that claiming again does not raise
  the worker count. The total indeed stays, but the check is made only for a worker
  id not yet in the map, so a settled worker that claims again, or is reported
  running again, is not counted. `LimitCanBeExceeded` shows it; `AdmissionExact`
  and `LimitOverRuns` say exactly when the limit holds.
- *A dead letter is final until replayed.* A second consumer that picked the
  delivery while it was pending may load it after it died and dispatch it again,
  because only `sent` is checked. `DeadLetterRevived` shows it;
  `DeadLetterOverwritten`, `SettledExact` and `BoundExact` say exactly which steps
  and runs break finality and the bound on attempts; `LoneWorkerSettles` shows that
  a single worker never does.
- *Every due delivery is eventually attempted.* A delivery that does not load gets no
  outcome, keeps its place and is picked again at once. `GoodDeliveryStarves` shows
  a delivery that is never reached, `AttemptedExactly` says exactly which ones are.
- *A runner that renews its lease in time may go on reporting.* A heartbeat renews
  the lease, for up to an hour, but never the worker token, which ends 120 seconds
  after the last claim: `RunnerShutOut`, and exactly when in `RunnerAdmitted` and
  `LeaseOutlivesToken`.
- *A nonce is not accepted twice within ten minutes* needs a clock that does not go
  back; the reading at internal/identity/handler.go:784 is wall time only.
  `ClockSetBack` shows a run, `ReplayRefusedExactly` says for every clock when a
  replay is refused, and `NonceSafety` is about non-decreasing clocks.
- *Each axis has at most 16 distinct values*
  (docs/operations/parallel-run-schedule-cutover.md:15). The code limits the values
  as sent, repeats included: `LimitCountsRepeats`.
- *Unpadding undoes padding* holds if and only if the padding length fits a byte;
  the service only uses blocks of 16.
- Cancelling an expired worker that no operation has looked at since makes it
  cancelled, not lost: the cancel loop comes before the recalculation
  (`LostExactly`).
- A claim that fails in its second transaction has spent its token
  (`FailedClaimStillSpends`, with such a run in `TokenLostToCancelledRun`).

## Modelling choices

- Clocks are integer nanoseconds and arbitrary per step; worker timestamps are
  stored with microseconds, so `Stamp` rounds down. Column times are kept exact.
- An operation that returns an error rolls back, so the row does not change.
- Worker statuses are a datatype because the front end admits only the five of
  internal/browserauth/parallel_runs.go:516-518. Stored workers always carry a
  status and a readable lease, as every operation writes them.
- bcrypt comparison, HMAC, the block cipher, base64, JSON encoding and the eight
  digest bytes are function arguments; what is assumed of them (a block cipher is
  invertible, base64 and JSON decode what they encode, a digest prefix has eight
  bytes) is a named precondition. Whether secrets match, agents are approved,
  projects belong to tenants or an HTTP attempt succeeds is an argument.
- The unique keys on schedules and token ids are those of smoke/schema.sql:153
  and smoke/schema.sql:162, compared exactly.
- The redactor and validator are modelled for any rules; `FixtureRules` gives the
  scripts' own and states the results for them. Which characters beyond ASCII count
  as alphanumeric is an argument.
- The length limits of launch keys are in bytes of UTF-8, as Go counts them.

## Model

| member | source | states |
|---|---|---|
| `ParallelRun.Recalculate` | internal/persistence/mysql/browser_parallel_runs.go:553-592 | one pass in id order yields the map with exactly the expired running workers lost, the counters of that map, and its summary in id order |
| `ParallelRun.CancelRunning` | internal/persistence/mysql/browser_parallel_runs.go:335-342 | exactly the running workers become cancelled, whatever order the map is walked in |
| `ParallelRun.Run.constructor` | internal/persistence/mysql/browser_parallel_runs.go:661-664 | a new row is queued, empty, with all counters zero |
| `ParallelRun.Run.Store` | internal/persistence/mysql/browser_parallel_runs.go:189-193 | writes map, summary, five counters and update time together and no other column |
| `ParallelRun.Run.ClaimWorker` | internal/persistence/mysql/browser_parallel_runs.go:128-203 | the whole new row of a claim, or the error with the row untouched |
| `ParallelRun.Run.UpdateWorker` | internal/persistence/mysql/browser_parallel_runs.go:210-252 | the whole new row of a worker report, or the error with the row untouched; status, aggregate and completion are never written |
| `ParallelRun.Run.HeartbeatWorker` | internal/persistence/mysql/browser_parallel_runs.go:254-316 | the whole new row of a heartbeat with leases checked before and after the renewal, its error, and the status told to the caller |
| `ParallelRun.Run.CancelAll` | internal/persistence/mysql/browser_parallel_runs.go:318-369 | the whole new row of a cancellation, or the error with the row untouched |
| `RunEffects.ClaimAccepted` | internal/persistence/mysql/browser_parallel_runs.go:142-155 | a claim commits if and only if the run is open, the agent is unregistered or approved, not unhealthy and proven where required, and the worker is known or fewer workers run than the concurrency; which error each failing condition gives |
| `RunEffects.UpdateAccepted` | internal/persistence/mysql/browser_parallel_runs.go:223-230 | a report commits if and only if the run is open and the worker has claimed it, and which error it gets otherwise |
| `RunEffects.HeartbeatAccepted` | internal/browserauth/parallel_runs.go:555-562 | a heartbeat commits if and only if the lease asked for, 120 seconds by default, is 15 to 3600, the run is open and the worker has claimed it, and which error it gets otherwise |
| `RunEffects.CancelAccepted` | internal/persistence/mysql/browser_parallel_runs.go:332-334 | a cancellation is refused if and only if the run is terminal |
| `RunEffects.StampExact` | internal/persistence/mysql/browser_parallel_runs.go:628-630 | stored worker times are the clock in whole microseconds, rounded down |
| `RunEffects.ClaimWorkers` | internal/persistence/mysql/browser_parallel_runs.go:156-180 | a claim leaves its worker running on a lease of 120 seconds with first claim time, result and capabilities carried over and the token of this claim only; others are untouched except for ended leases |
| `RunEffects.ClaimColumns` | internal/persistence/mysql/browser_parallel_runs.go:189-193 | the run is then in progress since its first claim, and aggregate, completion, cancellation and limit are kept |
| `RunEffects.UpdateWorkers` | internal/persistence/mysql/browser_parallel_runs.go:226-237 | a report sets status and, if given, result of its worker, running only on a lease that has not ended, and keeps everything else about it; others are untouched except for ended leases |
| `RunEffects.UpdateColumns` | internal/persistence/mysql/browser_parallel_runs.go:240-240 | a report never changes status, start, aggregate, completion, cancellation or limit |
| `RunEffects.HeartbeatRenews` | internal/persistence/mysql/browser_parallel_runs.go:271-286 | a heartbeat of a worker running on a live lease sets the lease to exactly the seconds asked for and keeps capabilities, claim time, result and token; every other worker is untouched except for ended leases |
| `RunEffects.HeartbeatColumns` | internal/persistence/mysql/browser_parallel_runs.go:287-300 | while a worker is active a heartbeat changes neither status nor verdict, and never start, cancellation or limit |
| `RunEffects.CancelWorkers` | internal/persistence/mysql/browser_parallel_runs.go:335-343 | a cancellation makes exactly the running workers cancelled, expired or not, and leaves the others as they were |
| `RunEffects.CancelColumns` | internal/persistence/mysql/browser_parallel_runs.go:343-357 | it closes the run now with both dates set: failed if a worker had failed, lost if one was lost, cancelled with code 3 if none had completed, otherwise failed with code 3 or completed |
| `RunInvariants.CountsPartition` | internal/persistence/mysql/browser_parallel_runs.go:577-588 | running, completed, failed, cancelled and lost counts add up to the size of the map |
| `RunInvariants.SummaryListsWorkers` | internal/persistence/mysql/browser_parallel_runs.go:554-560 | the summary has one row per worker, strictly in id order, with its status and result, and nothing else |
| `RunInvariants.OutcomeIsVerdict` | internal/persistence/mysql/browser_parallel_runs.go:594-622 | the outcome computed from counters is the precedence said of the workers: failure, loss, all cancelled, mixed, completed; with an active worker nothing changes |
| `RunInvariants.StepKeeps` | internal/persistence/mysql/browser_parallel_runs.go:180-193 | every claim, update, heartbeat and cancel keeps counters, summary, status and verdict coherent; a committed one rewrites the summary from the map |
| `RunInvariants.RunKeeps` | internal/persistence/mysql/browser_parallel_runs.go:101-369 | coherence through any interleaving of operations |
| `RunInvariants.ReachableStates` | internal/persistence/mysql/browser_parallel_runs.go:744-748 | in every reachable state the four counters plus the lost count equal the total; terminal, completed and aggregated coincide; a terminal run has no active worker and carries the verdict of its frozen map |
| `RunInvariants.TerminalFrozen` | internal/persistence/mysql/browser_parallel_runs.go:624-626 | no sequence of later operations changes a terminal row |
| `RunInvariants.StepGrows` | internal/persistence/mysql/browser_parallel_runs.go:180-193 | one step never forgets a worker, lowers the total, changes the limit or moves the start time |
| `RunInvariants.TotalsGrow` | internal/persistence/mysql/browser_parallel_runs.go:180-193 | the same through whole runs |
| `RunLeases.RefreshIdempotent` | internal/persistence/mysql/browser_parallel_runs.go:567-576 | recalculating again at the same clock changes nothing |
| `RunLeases.RefreshComposes` | internal/persistence/mysql/browser_parallel_runs.go:567-576 | recalculating at two clocks, in either order, leaves the statuses and counters of one at the later clock |
| `RunLeases.CommittedLeases` | internal/persistence/mysql/browser_parallel_runs.go:171-180 | after every committed step a worker still running holds a lease that ends at or after that clock |
| `RunLeases.LostExactly` | internal/persistence/mysql/browser_parallel_runs.go:567-576 | a running worker becomes lost if and only if its lease ended strictly before the clock and the step does not itself decide its status, or it is reported lost |
| `RunLeases.StillRunning` | internal/persistence/mysql/browser_parallel_runs.go:567-576 | a step within the lease that does not settle the worker leaves it running |
| `RunLeases.NeverLostWhileLeased` | internal/persistence/mysql/browser_parallel_runs.go:254-286 | through any run in which each step falls within the lease then held and nobody settles the worker, it stays running and its run stays open |
| `RunLeases.HeartbeatNeverRevives` | internal/persistence/mysql/browser_parallel_runs.go:271-315 | non-running workers stay as they were, expired ones become lost, nobody else becomes running, and the caller is told the status exactly when it is not running |
| `RunLeases.HeartbeatFinalises` | internal/persistence/mysql/browser_parallel_runs.go:286-300 | after a heartbeat the run is terminal if and only if nobody is active, with the verdict of its workers, completed now |
| `RunAdmission.ClaimRunning` | internal/persistence/mysql/browser_parallel_runs.go:151-180 | the running workers after a claim are the claimer and the others with live leases |
| `RunAdmission.UpdateRunning` | internal/persistence/mysql/browser_parallel_runs.go:226-237 | the running workers after a report |
| `RunAdmission.NewWorkerAdmitted` | internal/persistence/mysql/browser_parallel_runs.go:151-155 | a claim by an unknown worker always commits within the limit, although the stored count may include expired leases |
| `RunAdmission.ClaimExact` | internal/persistence/mysql/browser_parallel_runs.go:151-193 | a claim leaves the limit if and only if it revives a settled worker while live leases fill every slot |
| `RunAdmission.UpdateExact` | internal/persistence/mysql/browser_parallel_runs.go:226-240 | the same for a report of running |
| `RunAdmission.AdmissionExact` | internal/persistence/mysql/browser_parallel_runs.go:128-369 | one step of any kind leaves the limit if and only if it is such a revival |
| `RunAdmission.LimitOverRuns` | internal/persistence/mysql/browser_parallel_runs.go:128-369 | every state of a run is within the limit if and only if no step of it is such a revival |
| `RunAdmission.DisciplinedRuns` | internal/persistence/mysql/browser_parallel_runs.go:133-155 | from creation on, runs that re-claim or report running only workers stored as running are always within the limit |
| `RunAdmission.LimitCanBeExceeded` | internal/persistence/mysql/browser_parallel_runs.go:152-155 | a run of limit one with two active workers: claim a, complete a, claim b, claim a again |
| `RunReports.ReportsStand` | internal/persistence/mysql/browser_parallel_runs.go:226-240 | through any sequence of final reports, reported workers stand as reported and no result is lost |
| `RunReports.ReportsDecide` | internal/persistence/mysql/browser_parallel_runs.go:210-252 | for every order, repetition and clocks of the final reports, map, counters and summary end as the reports say and the run stays open |
| `RunReports.HeartbeatCloses` | internal/persistence/mysql/browser_parallel_runs.go:271-300 | then one heartbeat by any worker closes the run with the verdict of the reports |
| `RunReports.OrderIndependent` | internal/persistence/mysql/browser_parallel_runs.go:210-316 | two deliveries of the same reports, closed by any two heartbeats, agree in status, aggregate, counters and summary |
| `RunTokens.ParseExact` | internal/persistence/mysql/browser_parallel_runs.go:490-493 | a text is read as a credential if and only if it is a prefixed id without a dot, a dot and a non-empty secret, split there |
| `RunTokens.IssuedTextAccepted` | internal/persistence/mysql/browser_parallel_runs.go:489-515 | the text handed out at issue is accepted if and only if its row is unused, unrevoked, unexpired, bound to the claim and matches the secret |
| `RunTokens.SpendsExact` | internal/persistence/mysql/browser_parallel_runs.go:489-515 | a text spends a token if and only if it is the token id, a dot and a secret the stored hash accepts, and the token is bound to the claim, unused, unrevoked and unexpired |
| `RunTokens.ConsumedExact` | internal/persistence/mysql/browser_parallel_runs.go:515-526 | spending dates exactly that token and changes nothing else |
| `RunTokens.RevokedExact` | internal/persistence/mysql/browser_parallel_runs.go:412-427 | revoking dates the named token of that run once, keeps its first date, and changes nothing else |
| `RunTokens.ConsumedExtends` | internal/persistence/mysql/browser_parallel_runs.go:513-526 | spending only fills in the use date of a token that was neither used nor revoked, before its expiry |
| `RunTokens.TokenTable.Issue` | internal/persistence/mysql/browser_parallel_runs.go:371-402 | adds one token bound to tenant, project, run and agent, or nothing when the run or a free token id is missing |
| `RunTokens.TokenTable.Revoke` | internal/persistence/mysql/browser_parallel_runs.go:404-437 | records the first revocation and answers it on every later call; other tokens are untouched |
| `RunTokens.TokenTable.Consume` | internal/persistence/mysql/browser_parallel_runs.go:489-527 | spends exactly the token named by the text, or leaves the table untouched |
| `RunClaims.StepSound` | internal/persistence/mysql/browser_parallel_runs.go:117-203 | every step of issue, revoke, either half of a claim, or another operation keeps the ledger of spendings sound |
| `RunClaims.RunSound` | internal/persistence/mysql/browser_parallel_runs.go:117-203 | so does every interleaving; tokens are only added and dated |
| `RunClaims.GrantsSpendTokens` | internal/browserauth/parallel_runs.go:609-613 | where tokens are demanded, granted claims map one to one into spent tokens, each issued for that tenant, project, run and agent and spent before expiry |
| `RunClaims.TokensIssued` | internal/persistence/mysql/browser_parallel_runs.go:387-394 | every token on record was given out by an issue with that binding, hash and expiry |
| `RunClaims.GrantsProveIssues` | internal/persistence/mysql/browser_parallel_runs.go:489-515 | where tokens are demanded, every granted claim presented a secret accepted for the hash of a token issued for exactly that tenant, project, run and agent, before the expiry set at issue |
| `RunClaims.ClaimGranted` | internal/persistence/mysql/browser_parallel_runs.go:117-203 | a claim is granted if and only if its token was spent, or none was presented and none is demanded, and the run accepts it at its second transaction; the row then becomes the claimed one and otherwise stays |
| `RunClaims.ClosedForGood` | internal/persistence/mysql/browser_parallel_runs.go:513-520 | a used or revoked token keeps its dates through any interleaving and no text can spend it |
| `RunClaims.FailedClaimStillSpends` | internal/persistence/mysql/browser_parallel_runs.go:117-128 | a claim whose second transaction fails, whatever happened in between, leaves the run row as it was and its token spent |
| `RunClaims.PendingKeepsRequest` | internal/persistence/mysql/browser_parallel_runs.go:117-128 | a claim between its transactions is still the same claim later, or has finished |
| `RunClaims.TokenLostToCancelledRun` | internal/persistence/mysql/browser_parallel_runs.go:117-147 | issue, begin, cancel, finish: for every token and claim that presents it, the claim is refused and the token is spent |
| `RunnerTokens.RunnerAdmitted` | internal/persistence/mysql/browser_parallel_runs.go:31-54 | in every reachable state a runner call passes if and only if the worker's last committed claim issued a token that matches and ends, 120 seconds after that claim, later than now |
| `RunnerTokens.LeaseOutlivesToken` | internal/persistence/mysql/browser_parallel_runs.go:276-285 | a runner that keeps its lease alive stays running in an open run, but is admitted only until 120 seconds after its claim |
| `RunnerTokens.RunnerShutOut` | internal/persistence/mysql/browser_parallel_runs.go:176-179 | after one heartbeat for an hour the worker runs on and its runner is refused from two minutes after the claim |
| `Matrix.UniqueMeans` | internal/browserauth/parallel_runs.go:786-795 | de-duplication keeps exactly the present values, once each |
| `Matrix.UniqueInOrder` | internal/browserauth/parallel_runs.go:786-795 | they come in the order of their first occurrence |
| `Matrix.EntryExact` | internal/browserauth/parallel_runs.go:890-906 | a value counts if and only if it is a text or number that is not blank, with its trimmed text, or true, as 1 |
| `Matrix.AxesArePlurals` | internal/browserauth/parallel_runs.go:781-781 | each axis is read under its plural and shown under its singular |
| `Matrix.ExtendInOrder` | internal/browserauth/parallel_runs.go:800-811 | combinations come in order, each with all values of the next axis before the following one |
| `Matrix.CrossExact` | internal/browserauth/parallel_runs.go:800-811 | the product holds exactly the combinations that pick one value per column, none twice |
| `Matrix.CrossSize` | internal/browserauth/parallel_runs.go:800-811 | its length is the product of the column sizes |
| `Matrix.ColumnsMeans` | internal/browserauth/parallel_runs.go:781-799 | a column is there if and only if its axis has a value |
| `Matrix.ExpansionExact` | internal/browserauth/parallel_runs.go:778-817 | the expansion is rejected if and only if an axis has more than 16 values; otherwise it is the repetition-free cartesian product, of the product length and at most 16^4, and empty exactly without values |
| `Matrix.ExpansionByAxis` | internal/browserauth/parallel_runs.go:778-817 | a combination is produced if and only if it has exactly the keys of the non-empty axes, each with a trimmed non-empty scalar of that axis |
| `Matrix.LimitCountsRepeats` | internal/browserauth/parallel_runs.go:782-785 | the limit counts values as sent: n copies of one value are rejected if and only if n exceeds 16 |
| `Matrix.Deduplicate` | internal/browserauth/parallel_runs.go:786-795 | the loop computes the first occurrences of the trimmed scalars |
| `Matrix.Multiplied` | internal/browserauth/parallel_runs.go:800-811 | the nested loops extend every combination by every value, in order |
| `Matrix.Combine` | internal/browserauth/parallel_runs.go:778-817 | the loop over any axes computes the product of their columns, or rejects |
| `Matrix.MatrixCombinations` | internal/browserauth/parallel_runs.go:778-817 | the four axes of a launch, as specified by the expansion |
| `Text.TrimMeans` | internal/browserauth/parallel_runs.go:790-790 | trimming removes all white space at both ends and nothing else |
| `Text.BeforeExact` | internal/persistence/mysql/browser_parallel_runs.go:558-558 | sorted ids are compared by their first differing code point, a proper prefix first |
| `Text.HexDigits` | internal/persistence/mysql/browser_parallel_runs.go:807-811 | every byte is written as two lower-case hexadecimal digits |
| `Text.HexRoundTrip` | internal/persistence/mysql/browser_parallel_runs.go:807-811 | hexadecimal decodes back to its bytes |
| `RunStore.DerivedKeys` | internal/persistence/mysql/browser_parallel_runs.go:807-811 | a derived key fits 128 bytes for a base of at most 96, and two are equal if and only if base and digest are |
| `RunStore.LaunchKeeps` | internal/persistence/mysql/browser_parallel_runs.go:649-664 | a launch keeps every existing row and key as it was and the index one to one |
| `RunStore.LaunchPlaces` | internal/persistence/mysql/browser_parallel_runs.go:661-675 | after a launch every key has a run |
| `RunStore.LaunchAdds` | internal/persistence/mysql/browser_parallel_runs.go:649-664 | a launch adds one queued, empty row with the concurrency asked for under each new key, and nothing else |
| `RunStore.KeysOfLaunch` | internal/persistence/mysql/browser_parallel_runs.go:645-656 | a single launch uses its own key, a matrix launch one derived key per combination, in order, all for the tenant and project |
| `RunStore.LaunchPresent` | internal/persistence/mysql/browser_parallel_runs.go:661-664 | launching keys already present changes nothing |
| `RunStore.AnswersDistinct` | internal/persistence/mysql/browser_parallel_runs.go:668-675 | answered runs are distinct if and only if the keys are |
| `RunStore.LifeKeeps` | internal/persistence/mysql/browser_parallel_runs.go:632-682 | through any mixture of launches and protocol steps keys keep their runs, rows stay coherent and finished rows stay as they are |
| `RunStore.LaunchReplays` | internal/persistence/mysql/browser_parallel_runs.go:632-682 | launching the same keys again, however much later, inserts nothing, leaves the rows as they have become and answers the same runs in the same order |
| `RunStore.MatrixRunsDistinct` | internal/persistence/mysql/browser_parallel_runs.go:645-664 | a matrix launch gives each combination its own run if and only if no two combinations share a digest; every key fits |
| `RunStore.PlanMatrix` | internal/browserauth/parallel_runs.go:699-737 | a matrix request is accepted if and only if key, concurrency, axes and the number of runs are in range, and what is then launched |
| `RunStore.Schedule.Upsert` | internal/persistence/mysql/browser_parallel_runs.go:661-671 | inserts a queued row under a free key or answers the row that has it |
| `RunStore.Schedule.UpsertAll` | internal/persistence/mysql/browser_parallel_runs.go:649-675 | the loop over the keys of one launch and its answers in order |
| `RunStore.Schedule.CreateRuns` | internal/persistence/mysql/browser_parallel_runs.go:632-682 | one launch, single or matrix, or nothing when project or cycle do not belong to the tenant |
| `NonceCache.Replays.Purge` | internal/identity/handler.go:785-789 | drops exactly the entries older than ten minutes, in any order |
| `NonceCache.Replays.Validate` | internal/identity/handler.go:766-800 | the answer and the new cache of one call, in the order of the checks |
| `NonceCache.PurgedIsRecent` | internal/identity/handler.go:785-789 | a purged cache holds exactly the nonces accepted in the last ten minutes, at their times, and is of the size of that window |
| `NonceCache.SameDecision` | internal/identity/handler.go:790-799 | bounded cache and full history decide alike |
| `NonceCache.CallKeepsRelated` | internal/identity/handler.go:766-800 | one call of any kind is answered alike and keeps cache and history related |
| `NonceCache.CacheRefinesHistory` | internal/identity/handler.go:782-799 | over every call sequence with a non-decreasing clock the cache answers as the full history would |
| `NonceCache.AnswerExact` | internal/identity/handler.go:766-800 | after any calls a call is accepted if and only if it carries the expected signature under a configured secret, its nonce was not accepted in the last ten minutes and fewer than 10000 were, and which refusal it gets otherwise |
| `NonceCache.WindowBounded` | internal/identity/handler.go:794-797 | no ten-minute window, wherever it starts, has more than 10000 acceptances |
| `NonceCache.NonceSafety` | internal/identity/handler.go:782-799 | from an empty cache: same answers as the history, two acceptances of one nonce are more than ten minutes apart, windows bounded, purged cache equals recent history |
| `NonceCache.ReplayRefusedExactly` | internal/identity/handler.go:784-793 | whatever the clock does, an accepted nonce is refused as a replay if and only if no purging call since, this one included, has read a clock more than ten minutes past its acceptance |
| `NonceCache.ClockSetBack` | internal/identity/handler.go:784-789 | a wall clock set back lets one nonce be accepted twice within a nanosecond |
| `Deliveries.Normalized` | internal/integrations/dispatcher.go:146-160 | at least one attempt and one backoff step, and given settings kept |
| `Deliveries.Fail` | internal/integrations/dispatcher.go:128-144 | failed or dead letter by the attempt count, with the backoff step of that attempt clamped to the last |
| `Deliveries.SaveRecords` | internal/integrations/dispatcher.go:83-143 | a committing save is sent if and only if every stage passed with a response of 200 to 299, and otherwise names the first stage that failed and is failed or dead by the attempt count |
| `Deliveries.RetryWaits` | internal/integrations/dispatcher.go:132-142 | a retry is set for failed deliveries only, after the backoff of this attempt or the last one |
| `Deliveries.PickedExactly` | internal/persistence/mysql/queue_drain.go:57-61 | a delivery is taken if and only if it is pending, or failed with its wait over |
| `Deliveries.Row.Save` | internal/persistence/mysql/integration_delivery_store.go:50-70 | an outcome is saved if and only if the attempt count is still the loaded one and the delivery is not sent |
| `Deliveries.Row.Replay` | internal/persistence/mysql/browser_integrations.go:228-240 | back to pending without a next attempt, attempts kept |
| `Deliveries.ReplayReturns` | internal/persistence/mysql/browser_integrations.go:235-240 | a replayed delivery is pending and due at once with its attempts and history kept |
| `Deliveries.StepKeeps` | internal/persistence/mysql/integration_delivery_store.go:48-70 | every step of any consumer or replay keeps the columns consistent and attempts counted |
| `Deliveries.EveryRun` | internal/persistence/mysql/integration_delivery_store.go:48-70 | over every interleaving each attempt number gets exactly one committed outcome, attempts never fall even across replay, and the columns agree with the status |
| `Deliveries.FromCreation` | internal/persistence/mysql/browser_integrations.go:114-117 | from a new delivery attempts equal the number of outcomes |
| `DeadLetters.DeadLetterOverwritten` | internal/integrations/dispatcher.go:77-79 | in every reachable state a dead letter gets another outcome if and only if a consumer that loaded it as a dead letter at its current attempt saves, and its row changes if and only if that happens or it is replayed |
| `DeadLetters.SettledExact` | internal/persistence/mysql/integration_delivery_store.go:56-60 | from every reachable state a settled delivery that is not replayed stays as it is if and only if no such save happens |
| `DeadLetters.BoundExact` | internal/integrations/dispatcher.go:128-144 | from every reachable state with the delivery pending at a attempts, and until a replay, it gets at most max(1, MaxAttempts - a) outcomes if and only if no such save happens; having used them all it is settled |
| `DeadLetters.LoneWorkerCareful` | internal/integrations/worker.go:42-60 | a lone polling worker, with separate clocks for picking and saving and loads that may fail, never saves over a dead letter and acts only when the delivery is due |
| `DeadLetters.LoneWorkerSettles` | internal/integrations/worker.go:42-60 | with one worker a pending delivery gets at most its budget of outcomes, is settled once they are used, settles within that many attempts made when due, and is then left alone |
| `DeadLetters.DeadLetterRevived` | internal/integrations/dispatcher.go:72-79 | two consumers: a delivery limited to one attempt dies and is then sent on a second |
| `DeliveryQueue.SelectExact` | internal/persistence/mysql/queue_drain.go:57-69 | a delivery is selected if and only if it is due and comes before every other due one by next attempt or creation time, then id |
| `DeliveryQueue.AttemptedExactly` | internal/integrations/worker.go:48-59 | an overdue waiting delivery is attempted within the outstanding work, whatever the attempts meet, if and only if it and every waiting delivery before it load; otherwise it is never touched |
| `DeliveryQueue.GoodDeliveryStarves` | internal/integrations/worker.go:56-59 | behind one delivery that does not load a good one is never attempted, however long the worker polls |
| `Reviews.ReviewTable.Latest` | internal/persistence/mysql/browser_assets.go:201-223 | the status shown is the target of the version's last event, or draft |
| `Reviews.ReviewTable.Transition` | internal/persistence/mysql/browser_assets.go:116-173 | appends one event or refuses: missing version, transition not allowed, own version |
| `Reviews.TransitionKeeps` | internal/persistence/mysql/browser_assets.go:137-155 | one request keeps every version's log a proper chain and only appends |
| `Reviews.EveryRun` | internal/persistence/mysql/browser_assets.go:116-173 | so does every interleaving of requests on all versions |
| `Reviews.RequestExact` | internal/persistence/mysql/browser_assets.go:137-149 | anyone, the author included, may take a version one step along a course except that its author may not approve it, and why a request is refused otherwise |
| `Reviews.RequestRecorded` | internal/persistence/mysql/browser_assets.go:150-155 | an accepted request appends one event with its actor, target and the status before; a refused one nothing |
| `Reviews.ReviewSafety` | internal/persistence/mysql/browser_assets.go:137-149 | each log is a chain from draft of at most three events, deprecated is final, no approval is by the known author |
| `Reviews.CoursesOccur` | internal/persistence/mysql/browser_assets.go:137-155 | each of the five courses does occur, for any version and any user who is not its author |
| `References.SearchArray` | internal/persistence/mysql/browser_assets.go:281-301 | found if and only if the array holds an id or an object whose id or assetId is one |
| `References.Search` | internal/persistence/mysql/browser_assets.go:258-279 | the walk gives the same answer for every order of object fields |
| `References.SearchExact` | internal/persistence/mysql/browser_assets.go:242-301 | found if and only if some path leads to a whole number in the id set and ends under a key of the key set through arrays only, or at id or assetId of an object directly in an array under such a key |
| `References.SearchDistributes` | internal/persistence/mysql/browser_assets.go:242-256 | searching for a union of ids, or under a union of keys, is searching for either |
| `References.SearchMany` | internal/persistence/mysql/browser_assets.go:62-64 | searching for a set of ids is finding one of them |
| `References.IdExact` | internal/persistence/mysql/browser_assets.go:261-261 | a number counts if and only if it is the value of one of the ids within 64 bits |
| `References.KeysExact` | internal/persistence/mysql/browser_assets.go:225-240 | an asset is referred to by its name in singular and plural, a test cycle also in snake case |
| `References.ImpactedTests` | internal/persistence/mysql/browser_assets.go:41-74 | exactly the tests that are the asset or mention it |
| `References.Impact` | internal/persistence/mysql/browser_assets.go:16-39 | exactly the tests that mention the asset and the cycles that mention it or an affected test |
| `SnapshotDiff.AssetVersionDiff` | internal/browserauth/admin.go:2808-2844 | the three maps filled key by key are the difference of the two snapshots, a missing one counting as empty |
| `SnapshotDiff.DiffUnique` | internal/browserauth/admin.go:2832-2842 | a patch fits the first snapshot and yields the second if and only if it is the diff |
| `SnapshotDiff.DiffRoundTrip` | internal/browserauth/admin.go:2808-2844 | forward patch, reverse patch, mirror image, disjoint keys, and empty if and only if the snapshots are equal |
| `Secrets.PadBuffer` | internal/integrations/secret.go:139-147 | the buffer holds the value followed by its padding |
| `Secrets.UnpadBuffer` | internal/integrations/secret.go:149-163 | the scan accepts exactly well-padded buffers and returns what precedes the padding |
| `Secrets.PadRoundTrip` | internal/integrations/secret.go:139-163 | unpadding undoes padding if and only if the padding length fits a byte, as for every block size up to 255 |
| `Secrets.UnpadRoundTrip` | internal/integrations/secret.go:149-163 | whatever unpads, pads back to itself |
| `Secrets.PadMeans` | internal/integrations/secret.go:139-147 | padding fills whole blocks, always adds something, and every added byte says how many there are |
| `Secrets.UnpadExact` | internal/integrations/secret.go:149-163 | a buffer unpads to a value if and only if it is that value padded, for every block size up to 255 |
| `Secrets.ChainExact` | internal/integrations/secret.go:82-84 | every ciphertext block is the cipher of its plaintext block combined with the block before it, the first with the vector |
| `Secrets.CbcOpens` | internal/integrations/secret.go:83-84 | chained decryption undoes chained encryption for every block cipher and vector |
| `Secrets.CbcSeals` | internal/integrations/secret.go:130-131 | and the other way round |
| `Secrets.EnvelopeRoundTrip` | internal/integrations/secret.go:70-137 | encryption succeeds if and only if the key has 32 bytes, and decrypting under the same key returns the string, for every vector |
| `Secrets.DecryptExact` | internal/integrations/secret.go:97-137 | an envelope decrypts to a plaintext if and only if the key has 32 bytes, the code is the one of its own encoded vector and value under the key, sizes fit, and the decrypted blocks are the plaintext padded |
| `Secrets.DecryptedWasEncrypted` | internal/integrations/secret.go:97-137 | whatever decrypts has exactly the vector and ciphertext that encrypting its plaintext with that key and vector stores |
| `Fixtures.Manifest.Add` | scripts/redact_golden_fixture.py:39-42 | a record is appended unless it is already there |
| `Fixtures.RedactTree` | scripts/redact_golden_fixture.py:59-85 | the recursive walk returns the redacted tree and adds the record of every removal to the shared manifest, one for removals that are written alike |
| `Fixtures.RedactDict` | scripts/redact_golden_fixture.py:60-72 | sensitive fields dropped, the others redacted in order |
| `Fixtures.RedactList` | scripts/redact_golden_fixture.py:73-77 | items redacted in place |
| `Fixtures.InspectTree` | scripts/validate_golden_fixtures.py:115-127 | the walk appends exactly the findings of the tree to the shared error list, in order |
| `Fixtures.InspectDict` | scripts/validate_golden_fixtures.py:116-121 | every field is inspected, also below a sensitive key |
| `Fixtures.InspectList` | scripts/validate_golden_fixtures.py:122-124 | items are inspected under their index |
| `Fixtures.FindingsExact` | scripts/validate_golden_fixtures.py:115-127 | the validator reports exactly the positions of the tree that hold a field under a sensitive key or a credential-like string |
| `Fixtures.RecordsExact` | scripts/redact_golden_fixture.py:59-85 | the redactor records exactly those positions that have no sensitive key above them, each with its rule |
| `Fixtures.RedactionIsLocal` | scripts/redact_golden_fixture.py:59-85 | a location survives if and only if it passes no sensitive key, and then holds the redaction of what it held |
| `Fixtures.RedactionKeeps` | scripts/redact_golden_fixture.py:59-85 | every position that passes no sensitive key is still there and holds what it held, the marker for a credential, or its other keys in order; no other position is |
| `FixtureDocuments.HeadersClean` | scripts/validate_golden_fixtures.py:105-112 | kept headers raise no sensitive-header error and redact to themselves |
| `Fixtures.AddedCount` | scripts/redact_golden_fixture.py:39-42 | however often a removal is recorded it is listed once, and earlier entries as often as before |
| `Fixtures.DecimalExact` | scripts/redact_golden_fixture.py:74-76 | list positions are written in decimal without leading zeros |
| `FixtureDocuments.RedactHeaders` | scripts/redact_golden_fixture.py:45-56 | exactly the forbidden headers are deleted and recorded |
| `FixtureDocuments.RedactFixture` | scripts/redact_golden_fixture.py:88-108 | the whole document in the tool's order, or the failure on an unusable manifest |
| `FixtureDocuments.DocumentKept` | scripts/redact_golden_fixture.py:88-108 | redaction fails only on an unusable manifest; query, body and side effects are present exactly when they were and keep every position that is not sensitive, exactly the headers that are not forbidden remain in order, and all other fields are unchanged |
| `FixtureDocuments.ValidateHeaders` | scripts/validate_golden_fixtures.py:105-112 | one error per forbidden header |
| `FixtureDocuments.ValidateFixture` | scripts/validate_golden_fixtures.py:187-205 | the gate's secret-related errors, in its order |
| `FixtureDocuments.GateExact` | scripts/validate_golden_fixtures.py:187-204 | the gate reports exactly the forbidden headers and the objectionable positions of both bodies, the request query and listed side effects |
| `FixtureDocuments.ManifestComplete` | scripts/redact_golden_fixture.py:107-107 | the manifest is in order by path and rule and holds exactly the earlier entries and the new records |
| `FixtureDocuments.ManifestExact` | scripts/redact_golden_fixture.py:88-107 | the manifest holds exactly the earlier entries, the forbidden headers and the topmost objectionable positions of queries, bodies and side effects |
| `FixtureRules.MarkerIsSafe` | scripts/validate_golden_fixtures.py:49-54 | the marker is not a credential under the four patterns |
| `FixtureRules.SeparatorsDoNotHide` | scripts/validate_golden_fixtures.py:75-76 | separators put anywhere into a field name do not hide it |
| `FixtureRules.KeyByLetter` | scripts/validate_golden_fixtures.py:75-76 | a field name is read letter by letter: letters in lower case, digits kept, the rest of ASCII dropped |
| `FixtureRules.BearerSeen` | scripts/validate_golden_fixtures.py:51-51 | a bearer token standing on its own is seen in any text and any case of the word |
| `FixtureRules.BasicSeen` | scripts/validate_golden_fixtures.py:52-52 | so are basic credentials |
| `FixtureRules.KeyHeaderSeen` | scripts/validate_golden_fixtures.py:50-50 | a private key header of any of the four kinds is seen wherever it stands |
| `FixtureRules.WebTokenSeen` | scripts/validate_golden_fixtures.py:53-53 | a web token standing on its own is seen |
| `FixtureRules.RedactedTreePasses` | scripts/redact_golden_fixture.py:59-85 | under the scripts' own rules the validator finds nothing in a redacted tree |
| `FixtureRules.TreePassesExactly` | scripts/validate_golden_fixtures.py:115-127 | it passes a tree if and only if redaction would change nothing, and if and only if it would record nothing |
| `FixtureRules.RedactedFixturePasses` | scripts/validate_golden_fixtures.py:187-204 | under the scripts' own rules a redacted fixture raises none of the gate's sensitive-header, sensitive-field or credential-string errors, and redacting it again changes nothing, manifest included |

## Left out

- HTTP routing, cookies, request decoding, status codes and the OpenAPI tables.
- SQL text, connection handling and audit inserts; a failed audit insert between the two transactions of a claim is a claim that never finishes.
- A run id that does not exist for the tenant and project: the protocol steps are steps of an existing row.
- The filtering of token fields from responses.
- Run metadata, the execution snapshot and the matrix index stored with a run; they are written once and no modelled decision reads them.
- MySQL collation and the rounding of TIMESTAMP columns.
- Numbers outside the 64-bit range in the impact search count as not whole; what Go's conversion gives there depends on the platform.
- Deliveries: the payload, headers and signature of an attempt.
- DeliveryQueue: one polling worker, and rows that keep loading or not loading; new rows, replays and repaired endpoints during the polls are not modelled.
- FixtureDocuments.RedactFixture: existing manifest entries must have text as path and rule; any other shape is the failure case. The structural errors of the validator (missing fields, sizes, identities) are not modelled.
- FixtureDocuments.RedactHeaders: deletion in place is modelled as building the dictionary that remains.
- ParallelRun.Recalculate: the source mutates worker objects inside the map; here the map is a value that is reassigned, so aliasing between worker objects is not captured.
- Configuration, health, server lifecycle, pagination, CRUD repositories and report scripts, which would only add easy members.
