# CTRLD, modelled and proved in Dafny

CTRLD is a control panel for a Linux server. This project models the parts of its Go backend whose behaviour
unfolds over time: alerts, the WebSocket hub, login rate limiting, accounts with their sessions and the setup wizard,
privileged sessions, and, around them, password hashes, backup codes, audit pages, the metrics buffer and the
update check. For each it proves what holds over every run, not just over one call.

`dafny verify dfyconfig.toml` checks everything.

## How the model is built

| file | what it models |
|---|---|
| `Alerts.dfy`, `Runs.dfy` | threshold evaluation and the alerts table; maximal runs, defined without any counter |
| `Hub.dfy` | registration, broadcast and the bounded queue of each client |
| `RateLimiter.dfy`, `LoginFlights.dfy` | the limiter, as logins answered one at a time and the cleanup drive it; overlapping logins |
| `Timestamps.dfy` | the two timestamp texts and the byte order SQLite compares them in |
| `BackupCodes.dfy`, `ManualKey.dfy` | lists of backup codes; the authenticator secret shown for typing |
| `Database.dfy`, `Users.dfy`, `Setup.dfy`, `Mfa.dfy`, `Auth.dfy` | the tables and queries, and the four services on them |
| `Identity.dfy` | those services as one state machine |
| `SessionHistory.dfy`, `BackupHistory.dfy`, `AdminSafety.dfy`, `LoginLimits.dfy` | what the runs of that machine keep |
| `SessionOrigins.dfy`, `SessionEnds.dfy`, `SecondFactor.dfy`, `AccountOutcomes.dfy` | when its calls succeed, and what a success means from then on |
| `Pim.dfy`, `Privileges.dfy` | privileged sessions; those together with the accounts |
| `PasswordHash.dfy`, `Base64.dfy`, `Text.dfy` | the Argon2id hash text, its printer and its parser |
| `AuditPages.dfy`, `RingBuffer.dfy`, `VersionOrder.dfy` | audit pagination, the metrics buffer, the version comparison |
| `Common.dfy` | optional values, first match, filters |

Where the Go code changes things step by step there is a class or a method with the same fields, branches and loops.
Its contract equates the new state and the answer with a function of the old state; that function is what the run
theorems are about. One service call is one step, except in `LoginFlights.dfy`. The clock, random bytes, fresh identifiers and the outcomes of
cryptographic checks are inputs of a step. Theorems about elapsed time ask for a clock that does not run backwards.

## What the code does differently from what one might read

* The audit query's filter parameters include an action type; no query looks at it (`internal/audit/service.go:32-39`
  and `:87-106`). `AuditPages.ActionTypeIsIgnored` says so for all logs, `AuditPages.PageTypeIsExact` when a page
  nevertheless shows only the requested type, and `AuditPages.AnotherTypeIsShown` gives an instance where it does not.
* `expires_at` is stored as `2026-03-01T09:15:00Z` and compared as text with `2026-03-01 21:00:00`. `T` sorts after the
  space, so the filter compares dates: a privileged session of 15 minutes lasts through its expiry date.
  `Timestamps.FilterIsExact` says exactly when the filter means "expires later than now", `Timestamps.FilterOutlivesExpiry`
  gives an instance, and `Pim.SessionLastsThroughExpiryDate` says how long a session is the active one.
* `Complete` reports success although its config row is refused when the administrator it names does not exist
  (the row references `users`). `Setup.CompleteTakesEffect` gives the exact condition, `Setup.CompleteCanMiss` an instance.
* A trailing `.0` on the installed version can matter, because `dev`, the empty text and `0.0.0` are special spellings:
  `VersionOrder.TrailingZeroOfCurrent` says exactly when, `VersionOrder.TrailingZeroCanMatter` gives an instance.
* An open alert belongs to a kind, not to a mount: a healthy mount resolves the alert of a full one.
  `Alerts.FullMountReading` says exactly when an open alert and a full mount go together; `Alerts.DiskAlertFlaps` and
  `Alerts.FlappingIsFull` give a server with a full data disk on which an alert is raised and resolved at every look.
* A failure counts on while a lock is not over and starts a new count afterwards (`RateLimiter.FourthNeedsLock`). Ten
  failures recorded in a row bring the hour's lock (`RateLimiter.TenInARow`), but a login is refused while a lock lasts,
  so whether logins can bring it depends on how they overlap:
  * Answered one at a time, they are never counted past three, and the hour's lock is never set, unless one comes at
    the very instant a lock ends: `RateLimiter.LastInstantCountsOn`, `RateLimiter.LongLockIsNeverSet`, with
    `RateLimiter.LastInstantInstance` and `RateLimiter.PunctualReachesTheHour` for that instant.
  * With at most m of an address under way they are counted up to m + 2 and no further, that instant aside
    (`LoginFlights.CountIsBounded`, `LoginFlights.BoundIsReached`), so the hour's lock takes eight under way
    (`LoginFlights.HourNeedsEight`, `LoginFlights.EightReachTheHour`).
* The goroutine that sends a new client its history may find the channel closed, and a send on it panics.
  `Hub.HistoryPanicsIff` says exactly when, `Hub.HistoryPanicsInstance` gives an instance.
* Closing an account revokes its login sessions but leaves a privileged session open:
  `Privileges.ClosedAccountKeepsPrivilege` says for how long.
* The comment on the manual key shows groups of five characters; the code makes groups of four.

## Model

| member | source | states |
|---|---|---|
| Alerts.Service.constructor | internal/alerts/service.go:93-104 | a new service has the default thresholds, no counters and an empty table |
| Alerts.Service.UpdateThresholds | internal/alerts/service.go:395-399 | only the thresholds change |
| Alerts.Service.FindThreshold | internal/alerts/service.go:409-416 | the first threshold of the kind, or none |
| Alerts.Service.FindActiveAlert | internal/alerts/service.go:227-236 | some open alert of the kind, whichever row the database picks; none only if there is none |
| Alerts.Service.TriggerAlert | internal/alerts/service.go:172-206 | one open row is appended |
| Alerts.Service.ResolveAlert | internal/alerts/service.go:209-224 | resolving one row leaves no open alert of its kind, because there was only one |
| Alerts.Service.EvaluateMetric | internal/alerts/service.go:125-169 | counters, last values and table after one sample, for whatever row the lookup returns; one open alert per kind is kept |
| Alerts.Service.Evaluate | internal/alerts/service.go:108-122 | a snapshot is its cpu, ram and disk samples, one after the other |
| Alerts.NeverTwoActive | internal/alerts/service.go:153-158 | under any samples and threshold changes at most one alert of a kind is open |
| Alerts.KeysAreDistinct | internal/alerts/service.go:126-129 | two different metrics never share a counter |
| Alerts.CpuTable | internal/alerts/service.go:125-169 | the cpu rows are the maximal runs of at least two samples over the threshold, in order, each about its second sample: critical iff that is at the critical level or above, with that level or else the warning level, open iff the run is; the counter is the trailing run's length |
| Alerts.RamTable | internal/alerts/service.go:125-169 | the same for ram |
| Alerts.ExplainsSnoc | internal/alerts/service.go:146-168 | one more sample keeps rows and runs in correspondence |
| Alerts.DiskTable | internal/alerts/service.go:118-166 | the disk rows record, in order, exactly the samples that repeated their mount's violation while no alert was open, with mount, severity, threshold and value, each open until any mount is below its warning level; some row is open iff a repeated violation has had no such recovery |
| Alerts.FullMountReading | internal/alerts/service.go:146-166 | "an alert is open iff some mount is full" holds iff it is not the case that a mount is full and every repeated violation has been followed by a sample, of any mount, below the warning level |
| Alerts.OneMountReading | internal/alerts/service.go:118-166 | with a single mount an alert is open iff that mount is full |
| Alerts.DiskAlertFlaps | internal/alerts/service.go:146-166 | an instance for every length: with the default thresholds, n looks at a full and an empty disk leave n-1 rows and none open |
| Alerts.FlappingIsFull | internal/alerts/service.go:118-121 | in that instance a mount is full from the second look on |
| Alerts.DisabledIsSilent | internal/alerts/service.go:131-134 | no sequence of samples touches the rows of a kind without an enabled threshold |
| Alerts.LatestIsOnRecord | internal/alerts/service.go:147-168 | every sample of a kind with an enabled threshold is the latest value of its metric |
| Alerts.DefaultLevels | internal/alerts/service.go:38-42 | an instance on the defaults: a critical cpu alert at 95 and a memory warning at 90 |
| Runs.RunsSnoc | internal/alerts/service.go:147-152 | which runs one more sample keeps, extends, closes or opens |
| Runs.DecompositionSnoc | internal/alerts/service.go:147-158 | the list of maximal runs after one more sample |
| Runs.DecompositionUnique | internal/alerts/service.go:147-158 | the samples determine that list, so the tables above are fixed by the samples alone |
| Hub.Hub.constructor | internal/websocket/hub.go:61-71 | a new hub has no clients |
| Hub.Hub.Send | internal/websocket/hub.go:106-106 | a message goes to the end of an open queue with room |
| Hub.Hub.Close | internal/websocket/hub.go:109-109 | a channel that has not been closed is closed |
| Hub.Hub.HandleRegister | internal/websocket/hub.go:84-91 | the client is added with an empty, open channel |
| Hub.Hub.HandleUnregister | internal/websocket/hub.go:93-100 | a client still in the hub leaves and its channel is closed; otherwise nothing happens |
| Hub.Hub.HandleBroadcast | internal/websocket/hub.go:102-113 | every client gets the message or, with a full queue, is closed and removed, whatever order the map is visited in |
| Hub.Hub.WritePump | internal/websocket/hub.go:205-215 | the oldest queued message is written out |
| Hub.Hub.SendHistory | internal/websocket/hub.go:191-194 | the history is queued if there is room and dropped otherwise; on a closed channel the send panics, which is so iff the client has left |
| Hub.HistoryPanicsIff | internal/websocket/hub.go:91-113 | in any run, sending a client its history panics iff between its registration and then it unregistered or a broadcast found its queue full |
| Hub.HistoryPanicsInstance | internal/websocket/hub.go:91-97 | an instance: a client that leaves before its history is sent |
| Hub.InvHolds | internal/websocket/hub.go:79-113 | in every run the registered clients are those with an open channel, no channel is closed twice, no queue exceeds 256 |
| Hub.StreamIsGapFree | internal/websocket/hub.go:84-113 | a client has been given a prefix of the broadcasts since its registration, all of them while registered: no gap, repetition or reordering, in every interleaving |
| Hub.StepGapFree | internal/websocket/hub.go:102-113 | one step keeps that |
| Hub.ClosedStreamIsFinal | internal/websocket/hub.go:93-112 | a client that has left is never served, and its channel never closed, again |
| Hub.BroadcastReaches | internal/websocket/hub.go:102-113 | a broadcast comes last in a registered client's queue unless 256 messages wait there; then, and only then, the client is closed |
| Hub.HistoryIsQueued | internal/websocket/hub.go:191-194 | a registered client with room gets its history, and nobody else is touched |
| Hub.DrainingDelivers | internal/websocket/hub.go:205-215 | a writer that goes on delivers everything that was queued, in order, and empties the queue |
| RateLimiter.Limiter.constructor | internal/ratelimit/ratelimit.go:30-37 | a new limiter knows no address |
| RateLimiter.Limiter.IsBlocked | internal/ratelimit/ratelimit.go:41-56 | blocked iff a lock ends later than now, with the positive time left |
| RateLimiter.Limiter.RecordFailure | internal/ratelimit/ratelimit.go:60-84 | the address's count and lock after a failure; no other address changes |
| RateLimiter.Limiter.Reset | internal/ratelimit/ratelimit.go:87-91 | the address is forgotten |
| RateLimiter.Limiter.Cleanup | internal/ratelimit/ratelimit.go:106-121 | exactly the stale entries go, in whatever order the map is visited |
| RateLimiter.SoundHolds | internal/ratelimit/ratelimit.go:60-84 | in every run three failures and a lock come together, and no lock outlasts its own duration |
| RateLimiter.CleanupKeepsAnswers | internal/ratelimit/ratelimit.go:106-121 | cleaning up changes no answer about blocking, now or at any other time |
| RateLimiter.LockPersists | internal/ratelimit/ratelimit.go:60-84 | nothing but a reset brings the end of a running lock forward |
| RateLimiter.BlockNeverEndsEarly | internal/ratelimit/ratelimit.go:41-84 | a block announced for some time lasts that long unless that address is reset |
| RateLimiter.FailuresAreBounded | internal/auth/service/service.go:70-107 | in any window of any run of logins answered one at a time, at most 3 failures per started five minutes get through, plus 2 for each success or cleanup and 2 more |
| RateLimiter.WindowCounts | internal/ratelimit/ratelimit.go:60-121 | the accounting behind it: a window's failures led to locks, were discarded, or are pending at its end |
| RateLimiter.LastInstantCountsOn | internal/ratelimit/ratelimit.go:67-76 | a failure once a lock is over starts a new count iff it does not come at the very instant the lock ends |
| RateLimiter.LastInstantInstance | internal/ratelimit/ratelimit.go:67-76 | an instance: the fourth failure counts as the fourth at that instant, and as the first a nanosecond later |
| RateLimiter.FourthNeedsLock | internal/ratelimit/ratelimit.go:60-84 | a recorded failure, however it came about, is counted past three iff a lock is not over yet |
| RateLimiter.TenInARow | internal/ratelimit/ratelimit.go:77-83 | ten failures recorded in a row bring the hour's lock |
| RateLimiter.FourthNeedsLastInstant | internal/ratelimit/ratelimit.go:60-84 | a login answered at once is counted past three iff it is rejected at the very instant its address's lock ends |
| RateLimiter.LongLockIsNeverSet | internal/auth/service/service.go:70-107 | with logins answered one at a time and none at such an instant, no address is counted past three, and no lock is longer than five minutes |
| RateLimiter.PunctualReachesTheHour | internal/ratelimit/ratelimit.go:77-83 | a run of logins at those instants, whose tenth failure does bring the hour's lock |
| LoginFlights.AloneIsOneStep | internal/auth/service/service.go:70-107 | asked and answered alone, a login is the single step it is in the other theorems |
| LoginFlights.CountIsBounded | internal/auth/service/service.go:70-107 | with at most m logins of an address between ask and answer, none of either at the instant its lock ends, it is never counted past m + 2, in every interleaving |
| LoginFlights.BoundIsReached | internal/auth/service/service.go:70-107 | for every m there is such a run that is counted to m + 2 |
| LoginFlights.HourNeedsEight | internal/ratelimit/ratelimit.go:77-83 | with seven or fewer under way no lock is longer than five minutes |
| LoginFlights.EightReachTheHour | internal/ratelimit/ratelimit.go:77-83 | eight under way after two single failures bring the hour's lock |
| LoginFlights.OverlappingFailuresAreBounded | internal/auth/service/service.go:70-107 | the window bound on failures with at most m under way: m + 2 per started five minutes and per acceptance, 2 per acceptance or cleanup, and m + 1 more |
| RateLimiter.LocksAreApart | internal/ratelimit/ratelimit.go:71-83 | two locks of an address are at least five minutes apart |
| RateLimiter.DiscardIsSmall | internal/ratelimit/ratelimit.go:106-121 | a cleanup or a success throws away at most two failures that had not led to a lock, and no lock in force |
| RateLimiter.StandingHolds | internal/ratelimit/ratelimit.go:60-121 | in every run of logins and cleanups at most two failures of an address are counted without a lock |
| RateLimiter.ThirdFailureBlocks | internal/ratelimit/ratelimit.go:60-84 | with no lock in force two failures never block and the third blocks for exactly five minutes |
| RateLimiter.TenthFailureBlocks | internal/ratelimit/ratelimit.go:77-83 | a failure counted during a lock renews it for five minutes, from the tenth on for exactly an hour |
| RateLimiter.AcceptedStartsAfresh | internal/ratelimit/ratelimit.go:87-91 | after an accepted login two further failures do not block, and no other address is touched |
| RateLimiter.CleanupKeepsLocked | internal/ratelimit/ratelimit.go:106-121 | the cleanup keeps exactly the entries with three failures or more |
| Timestamps.SameFormatOrder | internal/auth/service/service.go:161-161 | in each of the two formats byte order is chronological order |
| Timestamps.OverdueIsComplement | internal/pim/service.go:180-185 | the cleanup's condition is the exact complement of the liveness filter, on any text |
| Timestamps.UnexpiredAntitone | internal/db/generated/queries.go:283-285 | a text that has stopped passing the filter never passes it again |
| Timestamps.FilterComparesDates | internal/db/generated/queries.go:283-285 | the filter passes iff the expiry date is today or later |
| Timestamps.FilterIsExact | internal/db/generated/queries.go:149-151 | the filter means "expires later than now" iff it is not the expiry date at or after the instant of expiry |
| Timestamps.FilterOutlivesExpiry | internal/pim/service.go:102-102 | an instance: a quarter of an hour that passes the filter half a day later |
| Timestamps.PlusMinutes | internal/pim/service.go:102-102 | the expiry is exactly the requested minutes later, at most one day on |
| Timestamps.NextDayCounts | internal/pim/service.go:102-102 | the next day is the next number of the Gregorian calendar, leap years and all |
| Timestamps.MinutesPass | internal/pim/service.go:89-102 | minutes added to an instant are minutes that pass, across days, months and years |
| Timestamps.TextsOfAnInstant | internal/pim/service.go:102-102 | an instance of the two texts |
| Users.Service.CheckLastAdmin | internal/users/service.go:209-236 | the counting loop decides as the number of active admins does |
| Users.Service.Create | internal/users/service.go:104-141 | which check answers first, and the one row a success adds |
| Users.Service.UpdateRole | internal/users/service.go:151-179 | the role changes only past the last-admin check; every other row stays |
| Users.Service.Deactivate | internal/users/service.go:182-206 | the account is closed and its open sessions revoked together, or nothing changes |
| AccountOutcomes.CreateSucceedsIff | internal/users/service.go:104-141 | an account can be created iff the request is well formed, no active account has the lower-cased address, and identifier and address are free |
| AccountOutcomes.CreatedHasRole | internal/users/service.go:104-141 | the new account has the requested role and is found by its address; the active admins grow by it iff that role is admin |
| AccountOutcomes.RoleChangeSucceedsIff | internal/users/service.go:151-179 | a role can be changed iff it exists, the account is active and it is not the last admin's demotion; then the account has it, and no other account's changes |
| AccountOutcomes.DeactivateSucceedsIff | internal/users/service.go:182-236 | an account can be closed iff it is another's, active, and not the last admin's; then it is closed, leaves the admins, and each of its open sessions is revoked at that time |
| Setup.Service.IsCompleted | internal/setup/service.go:93-99 | whether the config table carries the mark |
| Setup.Service.GetStatus | internal/setup/service.go:57-89 | completion, the newest active admin and the wizard's step |
| Setup.Service.SetConfig | internal/setup/service.go:192-200 | the entry is written unless its author does not exist |
| Setup.Service.CreateAdmin | internal/setup/service.go:115-167 | an admin is created only before completion and while no row, active or not, is an admin |
| Setup.Service.Complete | internal/setup/service.go:171-189 | the mark is set only once and only with an active admin |
| Setup.CompleteTakesEffect | internal/setup/service.go:182-200 | a reported success completed setup iff the administrator named is empty or exists; otherwise nothing changed |
| Setup.CompleteCanMiss | internal/setup/service.go:182-200 | an instance of a success that completed nothing |
| AccountOutcomes.CreateAdminSucceedsIff | internal/setup/service.go:115-167 | a first admin can be created iff setup is not complete, no row is an admin's, and the request is well formed with free identifier and address |
| AccountOutcomes.SetupCanBeFinished | internal/setup/service.go:57-189 | a created first admin is the only admin and the wizard says so at step 2; completing with it succeeds and leaves setup completed at step 4 |
| Auth.Service.CreateSession | internal/auth/service/service.go:144-178 | one unrevoked session is added, or the database refuses it |
| Auth.Service.Login | internal/auth/service/service.go:70-136 | guards in order: limiter, account, password, second factor; only a rejection is counted, only an accepted password resets |
| Auth.Service.VerifyMfa | internal/handler/mfa.go:73-137 | a session only for a token of the first step that is not five minutes old and a second factor that passes; a backup code that passes is spent |
| Mfa.Service.ConfirmTotpSetup | internal/mfa/service.go:84-143 | a verified setup adds the credential, stores a fresh list and returns its plain codes; otherwise nothing changes |
| Mfa.Service.VerifyTotpForLogin | internal/mfa/service.go:147-201 | passes iff one of the account's active authenticators validates the code and the account is active; which error comes first |
| Mfa.Service.UseBackupCodeForLogin | internal/mfa/service.go:204-239 | an accepted code is marked in the list stored with the account; a refusal stores nothing |
| Mfa.Service.RemoveCredential | internal/mfa/service.go:247-258 | only the user's own credential is made inactive |
| Mfa.RejectionChangesNothing | internal/mfa/service.go:204-239 | a refused code changes nothing |
| SecondFactor.ConfirmedIsInUse | internal/mfa/service.go:84-143 | a setup succeeds iff the first code was right, the account exists and the identifier is free; the authenticator is then in use and the reply shows the codes |
| SecondFactor.ConfirmedAccountIsGuarded | internal/auth/service/service.go:112-132 | from then on, in every run that does not remove it, no login of the account gets a session for its password; an unblocked one with the right password gets the token of the second step, which a code of that authenticator passes |
| SecondFactor.RemovedNeverPasses | internal/mfa/service.go:247-258 | a removed authenticator passes for no account in any later run |
| Auth.Service.Refresh | internal/auth/service/service.go:188-221 | the found session is revoked and one for the same account issued, or nothing is |
| Auth.Service.Logout | internal/auth/service/service.go:224-242 | the session of the access token is revoked; success either way |
| Auth.Service.RevokeSession | internal/auth/service/service.go:250-275 | only a session on the requester's own list is revoked |
| SessionEnds.LogoutRevokes | internal/auth/service/service.go:224-242 | logging out revokes the session of the access token at that time, and nothing else changes |
| SessionEnds.RevokesIffListed | internal/auth/service/service.go:250-275 | ending a session by name succeeds iff it is the requester's own, open, and not past its expiry date; it revokes that row and changes nothing else |
| SessionEnds.EndedForGood | internal/auth/service/service.go:224-275 | after either, in every later run, the row keeps that time, its access token does not find it and its refresh token buys nothing |
| SessionEnds.IssuedIsStored | internal/auth/service/service.go:144-221 | a session in a reply is the one row added: unrevoked, with the drawn tokens and expiry, its address and user agent, a refresh keeping the agent it had |
| Identity.SessionsAreOwned | internal/users/service.go:182-206 | in every reachable state each unrevoked session belongs to an active account, and identifiers and refresh tokens are distinct |
| Identity.StepKeepsInv | internal/auth/service/service.go:70-275 | every call of every service keeps that |
| SessionHistory.StepEffect | internal/db/generated/queries.go:98-183 | any call adds at most one session, to an account that was active, and only ever revokes others |
| SessionHistory.RevocationIsWriteOnce | internal/db/generated/queries.go:170-175 | over any run no session row disappears or changes but for being revoked, once, although the UPDATE has no guard |
| SessionHistory.RefreshTokenWorksOnce | internal/auth/service/service.go:188-221 | after a refresh token has bought a session, every later attempt with it is refused |
| SessionHistory.RefreshKeepsCount | internal/auth/service/service.go:202-220 | a successful refresh keeps every account's number of unrevoked sessions |
| SessionHistory.ClosedAccountStaysOut | internal/users/service.go:182-206 | a deactivated account has no unrevoked session and never gets another session, whatever is called |
| SessionHistory.DeactivationCloses | internal/users/service.go:182-206 | a successful deactivation starts that state |
| SessionOrigins.SessionsAreEarned | internal/handler/mfa.go:73-137 | a call hands an account a session iff it showed the password, unblocked, where no second factor is set up; or a live token of the first step with an authenticator code or an unused entry of the stored backup codes; or an open refresh token |
| SessionOrigins.EverySessionWasEarned | internal/auth/service/service.go:70-221 | behind every session of every reachable state is the one call that made it, and it was earned in that sense |
| SessionOrigins.MfaSessionHasPassword | internal/auth/service/service.go:279-290 | a session of the second step has a login behind it that showed the account's password not five minutes before |
| SessionOrigins.TokenHasPassword | internal/auth/service/service.go:120-132 | every token between the steps was issued, at the time it names, to whoever showed the password |
| SessionOrigins.EverySessionHasPassword | internal/auth/service/service.go:70-221 | however often refreshed, every session of every reachable state belongs to an account that showed its password in the run |
| LoginLimits.LimiterFollowsLogins | internal/auth/service/service.go:70-107 | in every run of all services the limiter's table is what logins and cleanups alone make of it |
| LoginLimits.RepliesAreCounts | internal/auth/service/service.go:70-107 | the replies "wrong credentials" are the failures the limiter counts |
| LoginLimits.GuessesAreBounded | internal/auth/service/service.go:70-107 | the limiter's bound, as a bound on how often an address can be told its credentials are wrong in any window of any run of all services, each call one step |
| LoginLimits.LoginReplies | internal/auth/service/service.go:70-112 | a login is told it is rate limited iff its address is blocked, and nothing changes; else that its credentials are wrong iff no active account has them, and only the count changes; else the count is cleared and the account's last login set |
| AdminSafety.CountIsCardinality | internal/users/service.go:217-234 | the loop's number is the number of distinct active admin accounts |
| AdminSafety.StepIsSafe | internal/users/service.go:151-236 | no call removes the last active admin or the mark of completion, and the mark is only set while there is an admin |
| AdminSafety.CompletedHasAdmin | internal/setup/service.go:171-189 | in every reachable state completed setup means at least one active admin |
| AdminSafety.WizardNeverGoesBack | internal/setup/service.go:57-89 | the wizard's step never decreases over a run |
| Pim.Service.constructor | internal/pim/service.go:41-47 | a new service has no sessions |
| Pim.Service.FindActive | internal/db/generated/queries.go:283-293 | LIMIT 1 without an order has only one row to pick |
| Pim.Service.Request | internal/pim/service.go:72-131 | which check answers first, and the row a success adds; at most one live session per user is kept |
| Pim.Service.GetActive | internal/pim/service.go:134-144 | the user's live session, or that there is none |
| Pim.Service.End | internal/pim/service.go:147-171 | only the user's own live session is ended |
| Pim.EndedIff | internal/pim/service.go:147-171 | ending succeeds iff the session is the user's live one; it ends it at that time and changes no other |
| Pim.EndedPrivilegeStaysGone | internal/pim/service.go:147-200 | after that, in every run, the user has no active session and gets no grant before a new request of theirs succeeds |
| Pim.RequestSucceedsIff | internal/pim/service.go:72-131 | a request succeeds iff it has a reason of 10 characters, 1 to 480 minutes, existing references and no live session of the user; it adds just that row, live |
| Pim.GrantedIff | internal/pim/service.go:189-200 | an action is granted under a session iff that is the user's live one, and is counted there and nowhere else |
| Pim.CleanupEndsOverdue | internal/pim/service.go:180-185 | the cleanup ends exactly the open sessions that are past their expiry date, at that time |
| Pim.Service.RecordAction | internal/pim/service.go:175-177 | one action is counted, on a session that has not ended |
| Pim.Service.CheckAndRecord | internal/pim/service.go:189-200 | a grant names the live session and counts on it; a refusal changes nothing |
| Pim.Service.ExpireOverdue | internal/pim/service.go:180-185 | exactly the open, overdue sessions are ended |
| Pim.AtMostOneLive | internal/pim/service.go:81-86 | in every reachable state no user has two live sessions |
| Pim.ExpireIsInvisible | internal/pim/service.go:180-185 | whether or not the cleanup ran, every later sequence of calls gets the same answers |
| Pim.ActionsAreCounted | internal/pim/service.go:189-200 | a session's counter is the number of grants under it and of direct records before its end |
| Pim.EndedRowIsFrozen | internal/db/generated/queries.go:295-307 | an ended session never changes again |
| Pim.SessionLastsThroughExpiryDate | internal/pim/service.go:88-117 | unless its owner ends it, a session is the active one at a later time iff that time's date is not past the expiry date |
| Privileges.RowsFollowPim | internal/pim/service.go:72-200 | in every run of all services the privileged sessions are what their own calls make of them |
| Privileges.PrivilegeLasts | internal/users/service.go:182-206 | whatever the account services do, an open privileged session its owner does not end is the active one iff the date is not past its expiry's |
| Privileges.ClosedAccountKeepsPrivilege | internal/users/service.go:182-206 | in every reachable state closing an account leaves its privileged session active through its expiry date, which is at most the day after the closing |
| Privileges.Reachable | internal/pim/service.go:81-102 | in every reachable state at most one live session per user, and every expiry is at most eight hours after a request |
| PasswordHash.DecodeInvertsFormat | internal/auth/password.go:96-134 | parsing undoes printing for all parameters that fit their variables and all salts and hashes |
| PasswordHash.FormatParts | internal/auth/password.go:48-58 | no part contains the separator, so there are exactly six |
| PasswordHash.AcceptedHasNormalForm | internal/auth/password.go:96-134 | whatever the parser accepts can be printed to a text it reads the same way |
| PasswordHash.VerifyOfHashed | internal/auth/password.go:64-85 | a stored hash verifies exactly the passwords that derive the same key, its own among them |
| PasswordHash.HashHasDocumentedPrefix | internal/auth/password.go:29-29 | every stored hash starts with the documented parameters |
| PasswordHash.OtherVersionIsRefused | internal/auth/password.go:107-112 | the format with any other version number is refused as an incompatible version |
| PasswordHash.StoredKeyLength | internal/auth/password.go:36-46 | a stored key is 32 bytes, 43 letters |
| PasswordHash.ScanParams | internal/auth/password.go:114-117 | accepted cost parameters fit their variables |
| Base64.DecodeOfEncode | internal/auth/password.go:45-46 | decoding undoes encoding, for every byte string |
| Base64.LettersAreTheAlphabet | internal/auth/password.go:45-46 | the letters are those of table 1 of RFC 4648 |
| Base64.TestVectors | internal/auth/password.go:45-46 | test vectors of section 10 of RFC 4648 |
| Base64.EncodedLength | internal/auth/password.go:45-46 | how many letters there are for any number of bytes |
| Text.SplitJoin | internal/auth/password.go:97-97 | splitting undoes joining of separator-free parts |
| Text.JoinSplit | internal/auth/password.go:97-97 | joining undoes splitting, and no part contains the separator |
| Text.ValueOfDecimal | internal/auth/password.go:48-56 | reading a printed number gives the number |
| BackupCodes.GenerateRandomCode | internal/mfa/totp.go:175-194 | five letters of the alphabet, a dash and five more, each from its own random byte |
| BackupCodes.GenerateBackupCodes | internal/mfa/totp.go:120-135 | eight unused codes |
| BackupCodes.UseBackupCode | internal/mfa/totp.go:157-172 | in place: the first unused match is marked, or the list stays as it was |
| BackupCodes.UseSpendsOne | internal/mfa/totp.go:160-169 | an acceptance spends one entry, of the code given, and keeps what the list consists of |
| BackupCodes.UseMarksFirst | internal/mfa/totp.go:160-169 | the first usable entry is marked as used, with the time |
| BackupCodes.TypedCodeIsAccepted | internal/mfa/totp.go:157-168 | an unused code is accepted as shown, in small letters, and with blanks around it |
| BackupCodes.AcceptedIsTheCode | internal/mfa/totp.go:157-168 | an accepted text is, up to case and blanks, the code |
| BackupCodes.CodesAreLegible | internal/mfa/totp.go:175-194 | every code is ten capitals or digits that cannot be mistaken for one another, with a dash in the middle |
| BackupHistory.CodesAreConserved | internal/mfa/service.go:84-239 | in every run of all services, the sessions an account got for backup codes since its list was issued and the unused codes make eight, and for each code its multiplicity |
| BackupHistory.AtMostEight | internal/mfa/service.go:204-239 | a list buys at most eight sessions, and a code at most as many as it is times on the list |
| BackupHistory.StepLists | internal/db/generated/queries.go:14-94 | a stored list changes only by being issued anew or by the code that buys a session |
| BackupCodes.EqualFoldIsSameUpper | internal/mfa/totp.go:164-164 | comparing up to case with an upper-cased input is comparing upper-cased texts |
| ManualKey.FormatManualKey | internal/mfa/totp.go:198-212 | the loop's groups, joined by spaces |
| ManualKey.SpacesEveryFifth | internal/mfa/totp.go:203-211 | every fifth character is a space, no other is, and none at the end |
| ManualKey.TypedKeyIsTheSecret | internal/mfa/totp.go:198-212 | typing the shown key, spaces and all, enters the secret it was made from |
| ManualKey.OnlyCosmetics | internal/mfa/totp.go:199-201 | nothing but letter case, spaces and padding is taken from a secret |
| AuditPages.Query | internal/audit/service.go:67-129 | the requested window of the matching entries, newest first, with clamped parameters |
| AuditPages.ToEntries | internal/audit/service.go:114-118 | every row is shown, in order |
| AuditPages.ActionTypeIsIgnored | internal/audit/service.go:87-106 | asking for another action type gives the same answer, on every log |
| AuditPages.PageTypeIsExact | internal/audit/service.go:87-118 | a page shows only the requested type iff all matching entries at the page's places are of that type |
| AuditPages.AnotherTypeIsShown | internal/audit/service.go:32-39 | an instance of a page that shows another type |
| AuditPages.ListingIsExact | internal/audit/service.go:88-106 | which entries a user filter, a severity filter and no filter list |
| AuditPages.ShownMatches | internal/audit/service.go:88-118 | every shown entry carries the user or severity asked for, and is a privileged action iff it names a privileged session |
| AuditPages.EveryColumnIsShown | internal/audit/service.go:180-205 | an instance with every column different, and one with every optional column missing |
| AuditPages.PageIsClamped | internal/audit/service.go:68-80 | page numbers from 1, 1 to 200 entries a page, 50 by default, and no page is longer |
| AuditPages.WalkSkipsNothing | internal/audit/service.go:120-128 | walking the pages never skips an entry that was there at the start, however the log grows meanwhile |
| AuditPages.WalkShowsListing | internal/audit/service.go:120-128 | on an unchanging log the pages put together are the filtered log |
| AuditPages.WalkIsShort | internal/audit/service.go:120-128 | such a walk ends after at most one page more than the unfiltered log fills |
| AuditPages.NoMorePastTheEnd | internal/audit/service.go:120-128 | past that page no more is announced, although the total ignores the filter |
| AuditPages.ListingGrows | internal/db/migrations/00002_pim_audit_config_alerts.sql:45-58 | appending puts new entries in front and leaves the old listing as it was |
| RingBuffer.Buffer.constructor | internal/metrics/buffer.go:22-26 | an empty buffer of any capacity above zero |
| RingBuffer.Buffer.Push | internal/metrics/buffer.go:29-38 | the log grows by the entry, and the buffer still holds its tail |
| RingBuffer.Buffer.Latest | internal/metrics/buffer.go:41-50 | the last entry pushed |
| RingBuffer.Buffer.History | internal/metrics/buffer.go:53-68 | the last entries pushed, as many as fit, oldest first |
| RingBuffer.Buffer.Since | internal/metrics/buffer.go:71-80 | those of them later than the given time |
| RingBuffer.SinceIsSuffix | internal/metrics/buffer.go:71-80 | with timestamps in order, everything from some point on |
| RingBuffer.SinceIsLater | internal/metrics/buffer.go:71-80 | an entry is kept iff it is strictly later than the given time |
| RingBuffer.TailIsTheEnd | internal/metrics/buffer.go:53-68 | what the history is of the log |
| VersionOrder.PartToInt | internal/updater/updater.go:175-186 | the number made of a component's digits, 0 past the end |
| VersionOrder.IsNewerVersion | internal/updater/updater.go:144-173 | true iff the installed version is a release and the first differing component of the endless, zero-filled vectors is larger |
| VersionOrder.NewerIsIrreflexive | internal/updater/updater.go:144-173 | no version is newer than itself |
| VersionOrder.NewerIsAsymmetric | internal/updater/updater.go:144-173 | never both ways round |
| VersionOrder.NewerIsTransitive | internal/updater/updater.go:144-173 | newer than newer is newer, for all texts |
| VersionOrder.NewerIsTotal | internal/updater/updater.go:144-173 | between releases, neither is newer iff all components agree |
| VersionOrder.TrailingZeroOfLatest | internal/updater/updater.go:157-171 | a trailing ".0" on the release never matters |
| VersionOrder.TrailingZeroOfCurrent | internal/updater/updater.go:149-152 | on the installed version it changes the answer iff that is, up to a leading v, `dev`, empty, `0.0` or `0.0.0` and the release has a component above zero |
| VersionOrder.TrailingZeroCanMatter | internal/updater/updater.go:149-152 | an instance where it does |
| VersionOrder.NumbersNotText | internal/updater/updater.go:162-171 | an instance: 1.10.0 is newer than 1.9.9, with or without the v |

## Left out

- Statement-level interleaving: a service call is one step; its check and its write are not one SQL transaction in the code, nor is a login atomic. Only what overlapping logins do to the limiter is modelled (`LoginFlights.dfy`).
- Which caller may make a call: the middleware's checks of a request are not part of this model, and the theorems hold whoever calls.
- Failing database writes, other than rows a constraint refuses: the code logs most of them and goes on.
- Hub.Hub.SendHistory: reports the panic of a send on a closed channel; that it ends the process is not modelled, because nothing comes after it.
- The hub's shutdown, its ticker, the capacity of its broadcast channel, pings, and connections that fail while writing.
- Webhooks, alert messages, trend texts, alert times: a resolved alert is a flag.
- Audit rows written by the services, CSV and JSON export.
- Argon2, SHA-256, authenticator codes and randomness: inputs, with fresh session identifiers and refresh tokens assumed.
- JWT: a token between the login steps is its account and time of issue, and none is accepted that was not issued.
- Identifiers of alerts and privileged sessions: they are fresh, so a row is named by its position.
- Several clock readings within one call, and fractions of a second in timestamps: one reading per call, whole seconds.
- Clocks in the year 9999, whose expiries would need five digits.
- The remaining seconds reported with a privileged session.
- Rounding of floating point: percentages and thresholds are reals.
- Overflow of page numbers and version components: both are unbounded.
- Letters, blanks and digits beyond ASCII, and bytes versus characters: text is a sequence of bytes.
- E-mail syntax and normalisation: their outcomes are inputs of a call.
- The JSON text of backup codes, and encoding of the stored secret: the value itself is stored.
- The check for an inactive account inside Login: the query returns active accounts only, so there is nothing to find.
- HTTP handlers, routing, the web interface, `/proc`, Docker, systemd and TLS.
