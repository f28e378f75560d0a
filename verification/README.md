# Proofs about the monitoring service

A Dafny model of the parts of the SNMP monitoring service where state, time and concurrency matter, and proofs of
what those parts keep. `dafny verify dfyconfig.toml` checks everything.

| file | what it models |
|---|---|
| `Common.dfy` | options, white space, lower case |
| `Incidents.dfy` | the incident table with its audit rows, and every transaction as a function of the table |
| `Outcomes.dfy` | what each transaction leaves, row by row, in terms of statuses, words, times and owners |
| `IncidentLaws.dfy` | audit replay, life cycle, path and inbound-update laws over whole runs |
| `IncidentRepo.dfy` | the repository object: the same transactions as methods over the two raw tables |
| `Burst.dfy`, `Dedup.dfy` | suppression of duplicates over time, and between calls that run at once |
| `Traps.dfy`, `Escalation.dfy` | trap correlation and recovery; the policy list and the periodic tick |
| `Cursor.dfy`, `Pagination.dfy` | the printed cursor; keyset pages read while others write |
| `LoginLimiter.dfy`, `SharedLimiter.dfy` | the in-memory login limiter, and the one in Postgres beside it |
| `Backoff.dfy`, `Throttle.dfy`, `PollPool.dfy` | the poll worker: retry backoff, token throttle, worker pool |
| `TokenCache.dfy`, `StringCache.dfy` | the two cached token providers |
| `Backfill.dfy` | the batch copy of `metrics_legacy` |

Each incident operation is written twice: as a function of the whole table, and as a method on the object whose
`ensures` equates the object's new state with that function of its old state. The laws are about the functions and so
hold of the object. The limiters and the backoff are objects
that keep a log of the calls made to them: their fields are what that log leaves of an empty object, and what a call
answers is stated in terms of it. The backfill job is a method over its two tables. Concurrent parts are state
machines on values whose steps are the statements, lock sections, channel operations and clock readings of the code:
there every interleaving matters, and a run is a list of steps that anybody may have taken.

## Results that differ from what one would expect

- An auto-resolve takes an open incident of any status straight to `resolved`, which the table of allowed
  transitions does not contain for `new`. The audit edge relation (`IncidentLaws.AuditEdge`) is therefore the allowed
  transitions, the jump from an open status to `resolved`, and notes that keep the status.
- An inbound update without an assignee clears the one that was set (`IncidentLaws.ItsmSettles`).
- The Postgres limiter forgets a lock when the window since the first failure is over, the in-memory one keeps it for
  the whole lockout. `SharedLimiter.SharedDenialIsLocalDenial` says exactly when each denies, and
  `SharedLimiter.LocalLockOutlivesWindow` is a history on which they differ. So the login form, which asks the Postgres
  limiter, lets one failing attempt more through per window than basic authentication, which asks the in-memory one:
  2*max-1 (19 for a user, 59 for an address) instead of 2*max-2 (18 and 58), and reaches it. A blank name is not limited
  at all in Postgres (`SharedLimiter.BlankIsUnlimited`).
- "At most rate + 2 tokens in any second" is false of the throttle when the goroutine or the timer lags: a tick can
  wait in the ticker channel while another is in the hand of the goroutine. From any reachable state the most tokens
  of the next second is `Throttle.Most`, no run takes more and some run takes as many, so rate + 2 holds of every
  continuation if and only if `Most` is at most that (`Throttle.RatePlusTwoExactly`). Over whole runs the least bound
  is rate + 4 if the interval divides the second and rate + 5 if not, and both are reached for every such rate from 1
  to 1000 (`Throttle.TokensInAnySecond`, `Throttle.LeastBoundIsReached`).
- "No call returns a value whose load finished more than ttl before the call began" is true of the double-checked
  lock and false of the provider built on flights: a caller can join a flight that is already bound to a load - the
  leader has read its clock while the cached value was valid, or its load has finished - and that load may be of any
  age by then. `TokenCache.FreshExactlyIf` gives the exact condition at the moment a call enters, for every
  continuation; `TokenCache.LagMakesStale` shows that every bound flight can fail it, and
  `TokenCache.BoundFlightHappens` that the very first call reaches one.
- A trap incident titled "Link recovery detected" does exist if an administrator creates it with source "trap"
  (internal/delivery/http/incidents.go:244-267), and only then: `Traps.RecoveryTitledIff`.

- A filter word of an escalation policy that is blank but not empty matches no incident (`Outcomes.EscalationOutcome`):
  it is normalized for the check only when it is not blank, and compared when it is not empty.

## Model

| member | source | states |
|---|---|---|
| `IncidentRepo.Repo.CreateIncident` | internal/infrastructure/postgres/incident_write_repo.go:85-158 | creating leaves the table with one new incident in `new`, default owner filled in, or refuses a blank title, unknown severity or unknown source and changes nothing; like every transaction here it takes a table that keeps the laws of audit and life cycle to one that keeps them |
| `IncidentRepo.Repo.IncidentStatusPath` | internal/infrastructure/postgres/incident_write_repo.go:13-35 | the search for both words in the status order finds exactly the statuses above the first up to the second, and nothing when a word is unknown or the order is not upward |
| `IncidentRepo.Repo.TransitionIncidentStatus` | internal/infrastructure/postgres/incident_write_repo.go:160-214 | a transition writes one row update and one audit row for every status on the path, or answers not-found or refused with both tables untouched |
| `IncidentRepo.Repo.WalkPath` | internal/infrastructure/postgres/incident_write_repo.go:184-206 | the loop over the path leaves the walk along it; the rejection inside the loop is never reached |
| `IncidentRepo.Repo.AssignIncident` | internal/infrastructure/postgres/incident_write_repo.go:216-262 | an assignment sets or clears the owner and writes one audit row that keeps the status |
| `IncidentRepo.Repo.ApplyItsmInboundUpdate` | internal/infrastructure/postgres/incident_write_repo.go:341-448 | the inbound update on the raw tables, and what its two flags mean: a changed status, and one audit row for each flag |
| `IncidentRepo.Repo.FindLatest` | internal/infrastructure/postgres/incident_write_repo.go:298-314 | the touched incident is an open match inside the window with the greatest `updated_at`; none only if there is no such match |
| `IncidentRepo.Repo.CreateOrTouchOpenIncident` | internal/infrastructure/postgres/incident_write_repo.go:264-339 | one serialised trigger touches that incident or inserts a new one, whichever of equally recent matches the database takes |
| `IncidentRepo.Repo.ResolveOpenIncidentsBySource` | internal/infrastructure/postgres/incidents.go:124-169 | the bulk resolve moves exactly the open incidents of the device and source, with one audit row each, and returns how many rows it changed |
| `IncidentRepo.Repo.ResolveOpenTrapIncidents` | internal/repository/trap.go:407-475 | exactly the open trap incidents of the device under one of the titles are resolved, with one audit row each, and the changed rows are counted; nothing without a device |
| `IncidentRepo.Repo.CreateOrTouchOpenTrapIncident` | internal/repository/trap.go:321-405 | a received trap either resolves the link-loss incidents of its device or touches or inserts under its own title |
| `IncidentRepo.Repo.EscalateUnackedIncidents` | internal/infrastructure/postgres/incident_write_repo.go:454-515 | one escalation statement reassigns exactly the `new` incidents in scope that the target does not own yet, with one audit row each, and returns how many rows it changed |
| `IncidentRepo.Repo.EscalationTick` | cmd/worker/run.go:251-275 | the loop over the policies is one policy after another on the table |
| `Outcomes.Words` | internal/infrastructure/postgres/incidents.go:35-76 | each status, severity and source is meant by exactly its own spelling in any case and with white space around it; a blank severity is a warning, a blank source manual |
| `Outcomes.CreateOutcome` | internal/infrastructure/postgres/incident_write_repo.go:89-158 | the new row, field by field; without a named owner it is the configured one for critical, else for the source, else the general one |
| `Outcomes.TriggerOutcome` | internal/infrastructure/postgres/incident_write_repo.go:264-293 | a trigger from outside is refused exactly for a blank title or an unknown word, and otherwise is the touch below for the words it names, with an empty object for empty details |
| `Outcomes.TouchOutcome` | internal/infrastructure/postgres/incident_write_repo.go:294-344 | a trigger inserts a `new` incident exactly when no new, acknowledged or in-progress incident of its key was written inside the window, a whole number of seconds; otherwise the last written of them gets the new details and time and nothing else changes |
| `Outcomes.TransitionOutcome` | internal/infrastructure/postgres/incident_write_repo.go:160-214 | a transition that succeeds adds one audit row for each status above the old one up to the target, in order, by the same person with the same comment; owner, details and every other incident stay |
| `Outcomes.AssignOutcome` | internal/infrastructure/postgres/incident_write_repo.go:216-262 | the owner becomes the trimmed name, or none for a blank one, with one audit row that says so; refused exactly for an id below 1, not found exactly for an unknown one |
| `Outcomes.ItsmOutcome` | internal/infrastructure/postgres/incident_write_repo.go:341-448 | an accepted inbound update writes one audit row for a changed status, then one for a changed owner, and the time exactly if either changed |
| `Outcomes.SourceResolveOutcome` | internal/infrastructure/postgres/incidents.go:124-169 | after a resolve by source every incident of the device and source is resolved or closed; one that was new, acknowledged or in progress has one audit row more, from its status to `resolved`, any other is as it was |
| `Outcomes.TrapResolveOutcome` | internal/repository/trap.go:407-475 | the same for the trap incidents of the device under one of the trimmed titles |
| `Outcomes.EscalationOutcome` | internal/infrastructure/postgres/incident_write_repo.go:454-515 | a runnable policy changes an incident exactly if it is `new`, at least as old as the timeout, of the severity and source the filter words name, not owned by the trimmed target, and unowned where the policy asks for that; it then has that owner and one audit row more |
| `Outcomes.EscalationDoesNothing` | internal/infrastructure/postgres/incident_write_repo.go:454-483 | without a timeout or a target nothing is done, and an unknown filter word is refused with nothing changed |
| `IncidentLaws.CreatedIncident` | internal/infrastructure/postgres/incident_write_repo.go:89-158 | creating is refused exactly for a blank title or an unknown word; otherwise one newborn incident is added and nothing else changes, unassigned exactly when neither the caller nor the configuration names an owner |
| `IncidentLaws.AuditReplaysToTable` | internal/infrastructure/postgres/incident_write_repo.go:54-83 | after any run of all operations from the empty tables the audit rows of each incident replay, from `new`, to its status and its three stamps; `resolved_at` is set exactly in resolved or closed, `closed_at` exactly in closed, each stamp is the time of the one audit row that entered its status, and created <= acknowledged <= resolved <= closed <= updated |
| `IncidentLaws.ReplayIsChain` | internal/infrastructure/postgres/incident_write_repo.go:75-83 | a trail that replays starts at `new`, links each row to the one before, and uses only audit edges |
| `IncidentLaws.ReplayStamps` | internal/infrastructure/postgres/incident_write_repo.go:54-64 | a stamp has a value exactly when the trail entered its status at that time |
| `IncidentLaws.ReplayOrder` | internal/infrastructure/postgres/incident_write_repo.go:54-64 | with audit times that do not go back the stamps are in order and inside the life of the incident |
| `IncidentLaws.LifeOnlyMovesForward` | internal/infrastructure/postgres/incidents.go:19-33 | between any two moments of a run no incident vanishes, its rank never falls, closed is final, stamps once set are never rewritten and the trail only grows |
| `IncidentLaws.RunKeeps` | internal/infrastructure/postgres/incident_write_repo.go:85-515 | the invariant behind both, over any run from any table that satisfies it |
| `IncidentLaws.ApplyKeeps` | internal/infrastructure/postgres/incident_write_repo.go:85-515 | every single transaction keeps it, and whatever changed was written at its own time |
| `IncidentLaws.PathIsAllowed` | internal/infrastructure/postgres/incidents.go:19-33 | every consecutive pair on a status path is an allowed transition and the path ends at its target |
| `IncidentLaws.TransitionSucceedsIff` | internal/infrastructure/postgres/incident_write_repo.go:160-214 | a transition of an existing incident succeeds exactly when the target is a known higher status, and then adds one audit row per rank |
| `IncidentLaws.TransitionsCompose` | internal/infrastructure/postgres/incident_write_repo.go:184-206 | going up in two calls at one clock time leaves the same tables, audit rows included, as in one |
| `IncidentLaws.ItsmSettles` | internal/infrastructure/postgres/incident_write_repo.go:396-445 | an accepted inbound update leaves status and owner as the message says, clearing the owner if it names none |
| `IncidentLaws.ItsmAcceptedIff` | internal/infrastructure/postgres/incident_write_repo.go:350-395 | it is accepted exactly when the status is left out, unchanged or one allowed step away |
| `IncidentLaws.ItsmIsIdempotent` | internal/infrastructure/postgres/incident_write_repo.go:341-448 | delivered again, however late, an accepted message changes nothing |
| `Burst.BurstCreatesAtMostOne` | internal/infrastructure/postgres/incident_write_repo.go:264-339 | a run of triggers for one key with gaps inside the window creates at most one incident, however long it lasts and whatever else happens short of resolving |
| `Burst.TriggerEffect` | internal/infrastructure/postgres/incident_write_repo.go:294-344 | a trigger inserts exactly when no new, acknowledged or in-progress incident of its key was written inside the window |
| `Burst.LossTrapsShareTheBurst` | internal/repository/trap.go:296-311 | link-down and BFD-down traps of a device, in any mix, are triggers for one key and so share that bound |
| `Dedup.AtMostOneInserts` | internal/infrastructure/postgres/incident_write_repo.go:283-337 | any number of calls for one key, each with its own start time inside one window, interleaved statement by statement: at most one inserts, and a finished other one has touched |
| `Dedup.KeepsOneInserter` | internal/infrastructure/postgres/incidents.go:78-89 | the step that carries it: calls with one key hold one lock, so a call that misses is the first of its key |
| `Dedup.ExactlyOneInserts` | internal/infrastructure/postgres/incident_write_repo.go:283-337 | where there is no unsettled incident of the key and nobody else brings one, exactly one of those calls inserts and all others touch, once all are done |
| `Dedup.StatementsMean` | internal/infrastructure/postgres/incident_write_repo.go:294-325 | a call touches only the last written unsettled incident of its key inside its window, which no other call has hit, and inserts only if there is none |
| `Dedup.NeverStuck` | internal/infrastructure/postgres/incident_write_repo.go:289-337 | no deadlock between advisory and row locks: in every reachable state with a call that is not done some call can take its next step |
| `Dedup.LockTextExact` | internal/infrastructure/postgres/incidents.go:78-89 | two calls hash the same text exactly if they agree in kind, source, severity, device and, up to case and white space, title |
| `Traps.LossTrapsCorrelate` | internal/repository/trap.go:175-213 | link-down and BFD-down traps of a device share one incident class, and no other trap falls into it |
| `Traps.TrapByText` | internal/repository/trap.go:175-189 | "linkdown" in an OID is a loss, else "linkup" a recovery, else BFD down a loss, else BFD up a recovery; with the title and severity of each, and of any other trap |
| `Traps.OtherTrapsByOid` | internal/repository/trap.go:296-309 | traps that are neither loss nor recovery share an incident class exactly when their OIDs agree, white space aside, or both are unknown |
| `Traps.RecoveryClosesLoss` | internal/repository/trap.go:349-353 | whatever came before, from a recovery trap of a known device on, every link-loss incident of it is resolved or closed, whatever else happens, until a trap, create or trigger raises one again |
| `Traps.RecoveryTitledIff` | internal/repository/trap.go:296-405 | over any run from the empty tables a trap incident with the recovery title exists if and only if some accepted create or trigger asked for source "trap" and that title: traps themselves never insert one |
| `Traps.RecoveryTitleCanBeCreated` | internal/delivery/http/incidents.go:244-267 | such a create is accepted |
| `Escalation.LoadedIsStaged` | cmd/worker/run.go:72-134 | whatever the environment, the loaded list is stage-1 policies for unassigned incidents and then at most one stage-2 policy, none of them refused |
| `Escalation.TickIsPerCase` | cmd/worker/run.go:251-275 | running the list over the table is running it over each incident by itself |
| `Escalation.TickOfTable` | cmd/worker/run.go:251-275 | at a fixed clock a tick is one decision per incident: the stage-2 target in scope, else the owner, else the first stage-1 target in scope, else nothing |
| `Escalation.TickBySettings` | cmd/worker/run.go:72-134 | the tick from the environment alone: which timeout, target and filter belong together, that stage 2 comes before an owner, an owner before stage 1, and the order of the stage-1 settings |
| `Escalation.SecondTickOfTable` | internal/infrastructure/postgres/incident_write_repo.go:454-515 | a second tick at the same clock changes nothing, audit rows included |
| `Escalation.AtMostTwoEscalations` | internal/infrastructure/postgres/incident_write_repo.go:454-515 | over any number of policy statements, in any order and each at its own time, with anything in between that does not assign it, an incident gets at most two escalation audit rows |
| `Cursor.CursorRoundTrip` | internal/delivery/http/incidents.go:459-482 | decoding an encoded cursor gives back the time and the id, for every 64-bit time and positive id |
| `Cursor.DecodeEncode` | internal/delivery/http/incidents.go:459-467 | unpadded base64url (section 5 of RFC 4648) decodes to the bytes it encoded |
| `Cursor.ParsePrintInt` | internal/delivery/http/incidents.go:471-478 | parsing a printed 64-bit decimal gives the number back |
| `Cursor.LineBreaksAreSkipped` | internal/delivery/http/incidents.go:464-468 | a line break anywhere in a cursor makes no difference to its decoding |
| `Pagination.Conditions` | internal/infrastructure/postgres/incident_read_repo.go:98-123 | the list of query conditions, appended one by one, selects exactly the rows of the named device, status and severity, each where one is given, whose key is below the cursor, and is refused exactly for an unknown status or severity |
| `Pagination.ListMeans` | internal/delivery/http/incidents.go:146-197 | one answer: a bad cursor or word is refused; every row returned is one the request asks for, behind the cursor; none such is left out in front of the last row returned, nor at all without a next cursor |
| `Pagination.ListIncidentsPage` | internal/infrastructure/postgres/incident_read_repo.go:94-157 | the loop over the fetched rows yields the page, which has a successor exactly when more rows are selected than the limit |
| `Pagination.NoIdTwice` | internal/infrastructure/postgres/incident_read_repo.go:94-157 | following the cursor while writers only raise `updated_at` and add rows, no incident comes twice |
| `Pagination.WalkDescends` | internal/infrastructure/postgres/incident_read_repo.go:125-140 | the keys of a walk strictly descend, whatever the writers do |
| `Pagination.UnwrittenIsReturned` | internal/infrastructure/postgres/incident_read_repo.go:94-157 | an incident that passes the filter and is not written during a finished walk is returned |
| `Pagination.StillTableGivesTheList` | internal/infrastructure/postgres/incident_read_repo.go:94-157 | on a still table the pages are the whole sorted filtered list, cut up |
| `Pagination.WalkEnds` | internal/delivery/http/incidents.go:162-197 | writers cannot keep a reader going: the walk ends within as many pages as there were rows ahead, plus one |
| `Pagination.RunWrites` | internal/infrastructure/postgres/incident_write_repo.go:85-515 | every run of the incident engine is such a writer |
| `Pagination.FollowIsCollect` | internal/delivery/http/incidents.go:162-197 | a client that hands back each printed cursor walks exactly the keys above |
| `Pagination.ReaderBesideTheService` | internal/delivery/http/incidents.go:146-197 | a client that follows the printed cursor over snapshots of one running service gets no incident twice, ends within as many requests as there were incidents plus one, and then has every matching incident that nobody wrote meanwhile |
| `LoginLimiter.Store.CheckAttempt` | internal/delivery/http/login_rate_limit.go:122-147 | after any history of the object a check denies exactly while the lock of the address, or else of the user, holds, names the rest of that lock as the wait, and changes nothing a later check can see |
| `LoginLimiter.Store.RecordFailure` | internal/delivery/http/login_rate_limit.go:149-173 | after any history a failure adds one to the running count of both subjects, locks exactly one whose count is then used up, for the whole lockout from now, keeps a lock that held, and looks like nothing to all other subjects |
| `LoginLimiter.Store.RecordSuccess` | internal/delivery/http/login_rate_limit.go:175-180 | after a login the next check of the pair is allowed at any time, whatever came before, and no other subject changes |
| `LoginLimiter.Store.GcLocked` | internal/delivery/http/login_rate_limit.go:182-198 | the sweep, at most once a minute, drops from both maps exactly the entries without a lock and without a failure in the last twenty minutes |
| `LoginLimiter.GcIsInvisible` | internal/delivery/http/login_rate_limit.go:122-198 | for times that do not go back, a limiter whose sweep does nothing gives the same answer to every check of every history |
| `LoginLimiter.NeverRelocks` | internal/delivery/http/login_rate_limit.go:136-145 | after no history, and at no later time, does a check take one of its two re-lock branches |
| `LoginLimiter.AtMostTwiceMaxLessTwo` | internal/delivery/http/auth.go:109-138 | basic authentication asks the in-memory limiter: of attempts taken one after another, with no login of the subject, at most 2*max-2 failing ones get through in any closed window, 18 for a user and 58 for an address |
| `LoginLimiter.LastStraw` | internal/delivery/http/login_rate_limit.go:149-173 | the thirtieth failure of an address or the tenth of a user locks it, for fifteen minutes, exactly if the first was at most ten minutes before |
| `LoginLimiter.EighteenGetThrough` | internal/delivery/http/login_rate_limit.go:114-173 | the bound for a user is reached |
| `SharedLimiter.LimitTable.LoginRateLimitCheck` | internal/infrastructure/postgres/login_rate_limit.go:11-71 | a blank subject is allowed and touches nothing; a denial names a positive wait; no row is added, exactly the rows not written for twenty minutes and not locked go, and no other subject's row changes |
| `SharedLimiter.CheckAnswer` | internal/infrastructure/postgres/login_rate_limit.go:31-70 | beside a matching in-memory state, a subject is denied exactly when the count of its running window is used up, and until its lock ends |
| `SharedLimiter.LimitTable.LoginRateLimitOnFailure` | internal/infrastructure/postgres/login_rate_limit.go:73-116 | a window runs afterwards with one failure more than before, a fresh one unlocked, one that is used up locked for the whole lockout from now; no other row changes |
| `SharedLimiter.LimitTable.LoginRateLimitOnSuccess` | internal/infrastructure/postgres/login_rate_limit.go:118-130 | after a login the next check of the pair is allowed at any time, and no other row changes |
| `SharedLimiter.LimitTable.LoginLimiterCheck` | internal/delivery/http/login_rate_limit.go:43-66 | after any history of the object the answer is the verdict of the in-memory limiter of the same history: denied exactly for a used-up count of a running window, the address first, until that lock ends |
| `SharedLimiter.LimitTable.LoginLimiterFailure` | internal/delivery/http/login_rate_limit.go:68-81 | a failure counts once for the address and once for the user, unless blank, and for nobody else |
| `SharedLimiter.SharedDenialIsLocalDenial` | internal/infrastructure/postgres/login_rate_limit.go:47-70 | fed the same history, cleanups included, the shared limiter denies exactly when the in-memory one holds a used-up count of a running window, until the same moment; so it never denies when the in-memory one allows |
| `SharedLimiter.SharedNeverRelocks` | internal/infrastructure/postgres/login_rate_limit.go:60-69 | no history leaves a row that a check would lock again |
| `SharedLimiter.LocalLockOutlivesWindow` | internal/infrastructure/postgres/login_rate_limit.go:47-56 | ten failures and a check just after the window: the in-memory limiter denies, the shared one allows |
| `SharedLimiter.AtMostTwiceMaxLessOne` | internal/delivery/http/login.go:77-102 | the login form asks the shared limiter: of the failing attempts for a subject that never logs in at most 2*max-1 get through in any closed window, 19 for a user and 59 for an address |
| `SharedLimiter.TwiceMaxLessOneGetThrough` | internal/infrastructure/postgres/login_rate_limit.go:47-56 | that many do get through, for users and for addresses |
| `SharedLimiter.BlankIsUnlimited` | internal/infrastructure/postgres/login_rate_limit.go:12-14 | any number of failing attempts under blank names get through |
| `Backoff.DeviceBackoff.CheckSkip` | cmd/worker/poll.go:204-212 | after any history of the object a device is told to wait exactly while the gap after its latest failure in a row runs, for the rest of it, at most fifteen minutes |
| `Backoff.DeviceBackoff.OnFailure` | cmd/worker/poll.go:215-238 | a failure is one more in the row of its device and of no other, and reports the gap that goes with that many |
| `Backoff.DeviceBackoff.OnSuccess` | cmd/worker/poll.go:241-245 | a success ends the row of its device and of no other |
| `Backoff.SkipIsExact` | cmd/worker/poll.go:204-245 | after any history interleaved with other devices a device is skipped exactly while the gap after its latest failure in a row runs, and told to wait for the rest of it, at most fifteen minutes |
| `Backoff.FailuresSpreadOut` | cmd/worker/poll.go:367-414 | the k-th failure in a row comes at least 2^(k-1)-1 minutes after the first for k <= 5, and at least 15*(k-4) minutes after it from then on |
| `Throttle.RateLimit` | cmd/worker/poll.go:116-129 | the configured rate is kept exactly from 0 to 1000 and otherwise clamped |
| `Throttle.IntervalFitsRateTimes` | cmd/worker/poll.go:152-155 | the rounded interval fits into a second exactly `rate` times, for every rate from 1 to 1000 |
| `Throttle.TokensByTime` | cmd/worker/poll.go:144-181 | by time T at most 1 + T/interval tokens are taken, and token number i (from 0) never before i intervals |
| `Throttle.TokensInSecond` | cmd/worker/poll.go:144-181 | in the closed second after any reachable state at most rate + 2 tokens are taken, plus the undelivered ticks of that state |
| `Throttle.AtMostMost` | cmd/worker/poll.go:144-181 | from any reachable state no run of one closed second takes more tokens than those lying, in flight and due in it |
| `Throttle.MostIsReached` | cmd/worker/poll.go:160-173 | some run takes exactly as many |
| `Throttle.RatePlusTwoExactly` | cmd/worker/poll.go:160-173 | from any reachable state rate + 2 bounds every continuation of one second if and only if no more than that many can still come |
| `Throttle.LeastBoundIsReached` | cmd/worker/poll.go:160-173 | for every rate some run reaches the bound of the row below |
| `Throttle.TokensInAnySecond` | cmd/worker/poll.go:144-181 | no run takes more than rate + 4 tokens in a closed second, wherever it starts, if the interval divides the second, and no more than rate + 5 otherwise |
| `Throttle.ThrottleStops` | cmd/worker/poll.go:160-180 | after the ticker is stopped it fires no more; the goroutine closes the channel once, and after that at most one more token is taken |
| `PollPool.Concurrency` | cmd/worker/poll.go:100-113 | there are from 1 to 128 workers, as configured exactly in that range |
| `PollPool.EveryDeviceIsSomewhere` | cmd/worker/poll.go:292-340 | in every reachable state a device is in exactly as many places - to send, in the channel, held, counted, dropped - as it stands in the list |
| `PollPool.FinishedRound` | cmd/worker/poll.go:340-355 | a finished round has counted every device not dropped, unsent or left in the channel, reports an error exactly when the run was cancelled, and without cancellation success + failed + skipped is the number of devices |
| `PollPool.ReportCountsOutcomes` | cmd/worker/poll.go:310-345 | at every moment of every run the three counters are the numbers of polls that succeeded, failed and were skipped in it, in all and for each device |
| `PollPool.NeverStuck` | cmd/worker/poll.go:292-340 | with or without cancellation a round that is not over has a step that gets it further |
| `PollPool.StepDrops` | cmd/worker/poll.go:292-340 | a measure drops with every step but an idle tick, which changes nothing |
| `PollPool.RoundEnds` | cmd/worker/poll.go:263-356 | a round of n devices and w workers makes at most 5n + w + 5 steps besides idle ticks |
| `PollPool.PollsNeedTokens` | cmd/worker/poll.go:298-312 | a throttled round has never begun more polls than there were ticks, and one for the first token |
| `PollPool.ThrottleOutlivesWorkers` | cmd/worker/poll.go:303-307 | no worker ever finds the throttle closed |
| `TokenCache.Ttl` | cmd/server/run.go:141-143 | the ttl in use is positive, and the configured one exactly when that is |
| `TokenCache.LoadsAreSpaced` | cmd/server/run.go:154-169 | for every interleaving of callers loads never overlap, not even with one still running, and their recorded starts are at least ttl apart |
| `TokenCache.ResultsAreFresh` | cmd/server/run.go:145-173 | a call that hits the cache, leads, or joins a running load gets a value whose load finished at most ttl before the call began; so does one that joins a flight decided after it began |
| `TokenCache.FreshExactlyIf` | cmd/server/run.go:154-173 | when a call enters, it is fresh in every continuation if and only if the flight under way, if any, is not bound to a load that finished more than ttl before the call began |
| `TokenCache.LagMakesStale` | cmd/server/run.go:154-173 | from every state with a bound flight, time alone leads to a call that is not fresh in every continuation |
| `TokenCache.BoundFlightHappens` | cmd/server/run.go:154-169 | the very first call reaches such a state |
| `StringCache.DoubleCheckedIsFresh` | cmd/trap-receiver/run.go:198-223 | for every interleaving loads never overlap, start at least ttl apart, and every call returns a value whose load finished at most ttl before the call began |
| `Backfill.Database.LowestFirst` | cmd/backfill-metrics-legacy/main.go:152-164 | a batch is as many rows as there are up to the limit, lowest ids first |
| `Backfill.Database.CopyBatch` | cmd/backfill-metrics-legacy/main.go:147-175 | one statement copies exactly such a batch and counts it |
| `Backfill.Database.CopyAll` | cmd/backfill-metrics-legacy/main.go:72-91 | the loop copies everything, or as many rows as its cap of batches allows; it fails if and only if the database fails at a batch it reaches, and then after exactly the batches before that one |
| `Backfill.Database.Run` | cmd/backfill-metrics-legacy/main.go:18-118 | the job: refused settings change nothing; otherwise it answers a failed batch exactly for a database failure at a batch it reaches, a refusal to finalize exactly when rows remain, else completion; copied + remaining is what remained at the start, an uncapped run leaves nothing, and the legacy table is dropped only when every one of its keys is in metrics |
| `Backfill.EveryScheduleAgrees` | cmd/backfill-metrics-legacy/main.go:132-175 | however the work is cut into batches and runs, capped or interrupted, once nothing remains the metrics table is the same and the copied rows add up to what remained at first |

## Assumptions

- Transactions of the incident engine are serialised and `NOW()` does not go back between them. `Dedup` is the
  exception: there every call has its own start time and the statements of all calls interleave. READ COMMITTED
  visibility and the exclusion of advisory locks are taken as given, and the FNV hash is an arbitrary function.
- Where a query leaves a tie open (`ORDER BY updated_at DESC LIMIT 1`), the choice is an argument, so the results hold
  for every choice. Audit rows of an incident are read in the order of their serial ids.
- Times are integers in nanoseconds. The zero time is 0 and clock readings are later. Text is folded and trimmed
  within ASCII and Latin-1. Counters and durations do not overflow.
- The login form trims both names. The database clock, which only the cleanup of `login_attempt_limits` reads, may
  differ from the service's by less than one window. Times are stored without rounding.
- Polls of one device do not overlap, because device addresses are unique; polls and loads return eventually.
- `metrics_legacy` timestamps are not null, and nobody else writes its keys while the job runs.

## Left out

- Dedup.AtMostOneInserts: rows there carry the fields a match looks at, without owner and details, because no step of the protocol reads them.
- Escalation.TickOfTable: all policies of a tick see one clock value; between two statements of a real tick the clock moves on.
- Pagination.ListIncidentsPage: receives the fetched rows; that the database returns the rows meeting the conditions in order is taken as given.
- Pagination.FollowIsCollect: the client asks for pagination from the first page on; answers without `next_cursor` are not followed.
- PollPool.EveryDeviceIsSomewhere: the two returns before the pool starts, when already cancelled or when the devices cannot be listed.
- PollPool.FinishedRound: the token channel is one bit here; how often tokens come is the subject of `Throttle`.
- Backfill.Database.Run: failures of the two counting queries end the program and are not modelled; a failing batch is.
- TransitionIncidentsStatus and the bulk handler: a sequence of single transitions.
- Trap mapping rows: pattern matching and vendor order are the database's; no row is assumed to match.
- The fallback of the login handler to the in-memory limiter when the database fails.
- Deletion of devices and incidents.
- Polling transitions inside the poll repository; their helpers are not part of this model.
- The alert webhook limiter: the same shape as the login limiter with fewer rules.
- HTTP routing, templates, metrics, logging, SNMP, mail and webhooks: no invariant of their own.
