# lazypock, modelled and verified

A Dafny model of the parts of lazypock (a Postgres-backed application server) in which a mistake would be
hardest to see: refresh-token rotation, the job queue, scheduled jobs, rate limiting, settings export, trusted
proxies, generated SQL, and the backup engine. Each part is a state machine or an algorithm with the branches of
the original code, and the lemmas state what it keeps over every input, every interleaving or every run.

Check it with `dafny verify dfyconfig.toml`.

## What is modelled

- **Sessions** (`Sessions`, `SessionProtocol`): the session table and its operations, and `rotate` as separate
  steps (claim, lookup, replay, mint) of any number of callers that may crash anywhere, after section 4.14.2 of
  RFC 9700.
- **Jobs** (`Jobs`, `JobProtocol`): enqueue, claim, reclaim, finish and backoff, and many workers whose leases run
  out while they work.
- **Cron** (`Crons`): the claim with row locks held across select, advance and commit, on many nodes, with manual
  runs, edits and deletions between.
- **Limiter and lockout** (`RateLimit`): counters in fixed windows and the lazy sweep.
- **Settings** (`Settings`, `JsonModel`): redaction, the merging import, and both over the whole table.
- **Network** (`Net`, `Client`): CIDR blocks over 128-bit words, host patterns, and the client address behind proxies.
- **Generated SQL** (`Ident`): quoting, lists, the upsert statement and index names, against a lexer for the
  delimited identifiers of section 5.2 of ISO/IEC 9075-2.
- **Backup** (`Calendar`, `Timestamp`, `Payload`, `Ndjson`, `Records`, `Import`, `ImportRun`, `Restore`): dates, the
  JSON document, the archive entries, upserts, the three atomicity modes, and the destructive restore.

## Assumptions

- One Postgres statement is one atomic step. Row locks, unique indexes and rollback behave as documented, `now()` is the
  transaction's start, and all nodes share one clock.
- Fresh tokens and family ids are new, and the token hash is injective: `SessionProtocol` names a token by its hash.
- The limiter reads the clock once per call. The code reads it before taking the lock and again after.
- A cron expression answers a moment strictly later than the clock, or nothing.
- JSON numbers are kept as text; the JSON printer and parser, the zip container and the parsing of an address are
  parameters. The printer is asked for lines that stay lines and read back.
- What the database knows of a table (columns, defaults, casts, row constraints) is a `Shape`; constraints across rows
  and tables are a predicate looked at after each statement. Row triggers that rewrite a row are not modelled.
- A collection's definition is created, updated or dropped by a parameter that touches that collection alone, as
  the comments in `crates/db/src/backup.rs` say of `collections::create`, `update` and `delete`. `Tables` holds no views:
  that `drop table … cascade` (`crates/db/src/ddl.rs:353-363`) also drops a view reading the table, one the archive
  names included, is not part of this model.
- With triggers off, what is left of the constraints is each table's own and holds of every part of a table, as
  uniqueness does. Postgres refuses `enable trigger` on a view.

## Where the code and its documentation part

- The sliding bound of the limiter is twice the limit less one. Both that it holds and that it is reached is proved.
- A replayed token is caught only while its row is there (`SessionProtocol.ReplayIsCaughtExactly`); a purge ends that.
- "A round trip cannot delete a secret" (`crates/api/src/router.rs:60-61`) is false inside arrays, where a merge
  replaces the array and redaction goes into it. The exact condition is proved.
- The settings export "redacts credentials" (`crates/api/src/router.rs:60-61`), but `redact` judges a value by the last
  part of the nearest key alone: an object under a secret key, or a secret key with a dotted tail, is exported in
  clear (`Settings.NestedSecretIsExported`, `Settings.ExposedExactly`).
- `ImportReport::errors` is said to be filled only under `continue` (`crates/db/src/backup.rs:983-985`); it is also
  filled under `per_collection`. Under `per_collection` a failed commit does not stop the import; only records that cannot be
  applied do (`Import.ErrorsExactly`, `Import.PerCollectionReportsErrors`).
- The row phase of a restore switches triggers on for every name, views included (`crates/db/src/backup.rs:562-568`),
  so a snapshot with a view cannot be restored. The condition is exact.
- A job enqueued with a budget of zero or less still gets one attempt (`JobProtocol.NoBudgetStillRunsOnce`).
- A finishing update of a job checks neither the lock nor the status. Late successes only upset the count of attempts
  (`JobProtocol.TimelinessIsExact`, `JobProtocol.OnlyFailuresNeedBeTimely`); a failure reported after a later claim is
  exactly what lets a job overrun its budget (`JobProtocol.LateFailureOverrunsExactly`). Finishing within the lease
  prevents both.
- A manual run or an edit of a cron writes a moment it computed earlier, without a lock. It can bring back an
  occurrence already claimed, exactly when the row is switched on and the moment is not later than every claim of the
  job (`Crons.WriteIsSafeExactly`).
- `index_name` is called collision-resistant; two tables share an uncut index name exactly when one continues the
  other at an underscore with the beginning of its column (`Ident.IndexNamesAgreeExactly`).
- The report counts a view's records as imported although none is written (`Import.ReportCountsWhatWasWritten`).
- Text order of timestamps is time order within four-digit years; beyond them the leading digits decide
  (`Timestamp.LongYearsSortByTheirLeadingDigits`).

## Model

| member | source | states |
|---|---|---|
| Calendar.CivilFromDaysIsTheCalendar | crates/db/src/backup.rs:701-717 | day 0, and no other day, is 1970-01-01; every day count gives a valid month and day; one day more is the calendar successor |
| Calendar.CivilFromDaysInvertsTheCount | crates/db/src/backup.rs:701-717 | counting days by leap years and month lengths up to the converted date gives the day count back |
| Calendar.CivilFromDaysIsABijection | crates/db/src/backup.rs:701-717 | every valid date is the date of exactly one day count |
| Calendar.CivilFromDaysIsMonotone | crates/db/src/backup.rs:701-717 | a later day count has a later date |
| Calendar.DayNumberCounts | crates/db/src/backup.rs:701-717 | the reference count goes up by one from a date to the next, across months, leap days and years |
| Calendar.DayNumberIsMonotone | crates/db/src/backup.rs:701-717 | the reference count keeps the order of dates |
| Timestamp.FormatThenParse | crates/db/src/backup.rs:687-698 | for years 0000 to 9999 the output has the shape of section 5.6 of RFC 3339 and an independent parser reads the same second |
| Timestamp.ParseThenFormat | crates/db/src/backup.rs:687-698 | every text that grammar accepts is the output for the second it names, so the output is injective |
| Timestamp.TextOrderIsTimeOrder | crates/db/src/backup.rs:687-698 | section 5.1 of RFC 3339: string order of outputs is time order |
| Timestamp.LongYearsSortByTheirLeadingDigits | crates/db/src/backup.rs:687-698 | a moment beyond year 9999 is later than any of a four-digit year, and its text sorts before exactly those whose year exceeds its four leading digits |
| Timestamp.OnlyFourDigitYearsFit | crates/db/src/backup.rs:687-698 | the output has the shape of RFC 3339 exactly in years 0000 to 9999 |
| Timestamp.NegativeYearsAreSigned | crates/db/src/backup.rs:687-698 | a negative year has its sign within four characters |
| Sessions.RotationSpendsExactlyOneToken | crates/auth/src/sessions.rs:127-194 | in the fields of the rows, when each answer is given and what it leaves: a live token is spent and one successor of the same login lives thirty days; a replay leaves nothing live in the family and counts what it ended; other refusals change nothing |
| Sessions.NullAndEmptyAreTheSuperuser | crates/auth/src/sessions.rs:209-248 | a NULL and an empty collection id are one superuser identity for reading, checking and revoking |
| Sessions.SessionStore.IssueInFamily | crates/auth/src/sessions.rs:63-103 | inserts one live row, or nothing when the hash is taken |
| Sessions.SessionStore.Peek | crates/auth/src/sessions.rs:114-124 | reads the row of a token, spent or not, and changes nothing |
| Sessions.SessionStore.Claim | crates/auth/src/sessions.rs:140-150 | succeeds exactly for an unrevoked, unexpired row and then revokes that row and no other |
| Sessions.SessionStore.RevokeFamily | crates/auth/src/sessions.rs:197-206 | stamps every unrevoked row of a family and counts them |
| Sessions.SessionStore.RevokeForUser | crates/auth/src/sessions.rs:209-227 | stamps every unrevoked row of one account and no other, an empty collection meaning NULL |
| Sessions.SessionStore.PurgeExpired | crates/auth/src/sessions.rs:230-235 | removes every row whose expiry has passed and counts them |
| Sessions.SessionStore.Rotate | crates/auth/src/sessions.rs:127-194 | without interruption, claim, lookup, revocation and insert together are the rotation function |
| Sessions.SessionStore.Refresh | crates/auth/src/service.rs:297-412 | a token for the wrong collection or an unknown one leaves the table unchanged; otherwise the table is rotated, and a live token is answered with its successor exactly when its account, and for a record its collection, are still there |
| SessionProtocol.StepKeepsInv | crates/auth/src/sessions.rs:63-235 | every step of any caller (claim, lookup, replay, mint, crash, logout, purge, login, clock) keeps the chain invariant |
| SessionProtocol.RunKeepsInv | crates/auth/src/sessions.rs:63-235 | so does every run |
| SessionProtocol.AtMostOneHolder | crates/auth/src/sessions.rs:127-194 | in every interleaving a family has at most one unrevoked row or rotation between claim and insert |
| SessionProtocol.FamiliesAreChains | crates/auth/src/sessions.rs:127-194 | every token has at most one successor and a family is one chain in order of issue |
| SessionProtocol.LoginIssuesALiveToken | crates/auth/src/sessions.rs:52-103 | any account can log in at any time, and its new token is live for thirty days and alone in its family |
| SessionProtocol.ReplayEndsTheFamilyUnlessAMintIsPending | crates/auth/src/sessions.rs:165-191 | after an "already used" answer no continuation ever has an unrevoked session in that family, if and only if no mint was pending in it |
| SessionProtocol.FamilyLogoutLastsUnlessAMintIsPending | crates/auth/src/sessions.rs:197-206 | so does a logout of one family, under the same condition |
| SessionProtocol.CrashBetweenClaimAndInsertEndsTheFamily | crates/auth/src/sessions.rs:140-163 | a caller that stops between claim and insert leaves a family that never has an unrevoked session again |
| SessionProtocol.DeadRun | crates/auth/src/sessions.rs:165-206 | a family without unrevoked rows and pending mints stays so |
| SessionProtocol.ReplayIsCaughtExactly | crates/auth/src/sessions.rs:127-191 | a token already exchanged is caught when presented, and its family revoked, if and only if its row is still there; otherwise the rotation changes nothing |
| SessionProtocol.UnexpiredReplayIsCaught | crates/auth/src/sessions.rs:165-191 | so it is caught for as long as it has not expired, whatever was purged |
| SessionProtocol.PurgedReplayGoesUnnoticed | crates/auth/src/sessions.rs:230-235 | a concrete run: after a purge the replay is answered as unknown and the family lives on |
| SessionProtocol.StepsMakeARotation | crates/auth/src/sessions.rs:127-194 | the steps run without interruption are the rotation function of the table |
| SessionProtocol.LogoutLastsUntilLogin | crates/auth/src/sessions.rs:209-227 | revoking an account lasts until its next login, if and only if no rotation of it was between claim and insert |
| Jobs.BackoffGrowsAndHolds | crates/api/src/jobs.rs:447-455 | the wait never shrinks, doubles up to the ceiling of five minutes and reaches it at the ninth attempt |
| Jobs.BatchExists | crates/api/src/jobs.rs:145-184 | for any table, limit and locks there is a batch the claim statement may take |
| Jobs.BatchGoesInOrder | crates/api/src/jobs.rs:155-160 | a job of higher priority, or of the same and due earlier, is claimed before any other |
| Jobs.JobQueue.Enqueue | crates/api/src/jobs.rs:85-115 | adds one pending job with no attempts |
| Jobs.JobQueue.Claim | crates/api/src/jobs.rs:145-184 | takes as many due unlocked jobs as the limit allows, leaves none behind that has a higher priority or the same and an earlier moment, marks exactly those, and hands out their attempts as stored |
| Jobs.JobQueue.ReclaimStale | crates/api/src/jobs.rs:186-213 | hands back exactly the running jobs whose lock is older than the lease, counting an attempt and burying the spent ones |
| Jobs.JobQueue.RunOne | crates/api/src/jobs.rs:216-278 | success finishes the row; failure writes the attempts seen at the claim plus one, whatever the row holds by then |
| Jobs.JobQueue.RunClaimed | crates/api/src/jobs.rs:125-138 | every claimed job is finished once with its own outcome and time, and no other row changes |
| Jobs.JobQueue.RunDue | crates/api/src/jobs.rs:118-140 | one pass, each statement with its own clock reading: stale leases first, then one batch, every job of it finished once and no other row changed |
| JobProtocol.StepKeepsInv | crates/api/src/jobs.rs:118-278 | every timely step keeps the lease invariant |
| JobProtocol.RunKeepsInv | crates/api/src/jobs.rs:118-278 | so does every timely run |
| JobProtocol.TimelinessIsExact | crates/api/src/jobs.rs:225-278 | a finishing update leaves every account exact (one holder, each claim counted once), then and in every timely continuation, if and only if it is timely: success before the lease was taken back, failure before the next claim |
| JobProtocol.OnlyFailuresNeedBeTimely | crates/api/src/jobs.rs:118-278 | in every run whose failures alone are timely, however late its successes, a job is claimed and run at most as often as its budget |
| JobProtocol.OverrunsExactly | crates/api/src/jobs.rs:225-278 | a finishing update lets some continuation with timely failures claim a job beyond its budget if and only if it is a failure whose worker saw fewer attempts than there were claims before the last |
| JobProtocol.LateFailureOverrunsExactly | crates/api/src/jobs.rs:225-278 | after a timely run: if and only if it is a failure reported after a later claim of the job |
| JobProtocol.JobsKeepToTheirBudget | crates/api/src/jobs.rs:118-278 | in every timely run a running job has one holder whose snapshot is the stored attempts, each claim counts one attempt, and a job is claimed and run at most as often as its budget |
| JobProtocol.StepsMakeProgress | crates/api/src/jobs.rs:145-278 | each step leaves status and attempts alone or lowers a measure that is never negative |
| JobProtocol.JobsComeToAnEnd | crates/api/src/jobs.rs:145-278 | a job changes at most as often as its measure says; done and dead are final |
| JobProtocol.RetriesWaitOutTheirBackoff | crates/api/src/jobs.rs:240-278 | a failed job is not claimed again before its backoff has passed, in any run |
| JobProtocol.EnqueuedJobsWaitOutTheirDelay | crates/api/src/jobs.rs:85-115 | a new job can be claimed exactly from the end of its delay on, in any run |
| JobProtocol.CrashedWorkIsHandedBack | crates/api/src/jobs.rs:186-213 | the claim of a worker that stopped is handed back when its lease is over, with the attempt counted, and can no longer be begun or finished |
| JobProtocol.WithinLeaseIsTimely | crates/api/src/jobs.rs:118-140 | finishing within one lease of the claim makes a run timely |
| JobProtocol.WithinLeaseFromTheStart | crates/api/src/jobs.rs:118-140 | the same for runs from an empty queue |
| JobProtocol.BatchIsItsClaims | crates/api/src/jobs.rs:145-184 | the statement that claims a batch does what claiming its jobs one by one does |
| JobProtocol.LateFailureRevivesADoneJob | crates/api/src/jobs.rs:236-278 | a concrete run: a late failure revives a done job, lowers its attempts and runs it beyond its budget |
| JobProtocol.NoBudgetStillRunsOnce | crates/api/src/jobs.rs:145-278 | for every budget of zero or less there is a timely run in which the job is claimed, begun once and then dead after one attempt |
| RateLimit.SweepingIsUnobservable | crates/api/src/rate_limit.rs:88-135 | for every sequence of calls the answers, waits included, are those of the machine without a sweep |
| RateLimit.SweepingDropsIdleKeys | crates/api/src/rate_limit.rs:88-135 | with ten thousand keys held and a window since the last sweep, a call leaves no key but its own whose window is over; clearing never sweeps |
| RateLimit.RunsAgree | crates/api/src/rate_limit.rs:88-231 | the two machines agree on every count that is still in its window, for limiter and lockout calls alike |
| RateLimit.SlidingBound | crates/api/src/rate_limit.rs:88-135 | in any interval one window long a key gets at most twice its limit less one through |
| RateLimit.SlidingBoundIsAttained | crates/api/src/rate_limit.rs:88-135 | that bound is reached for every limit and every window longer than one tick |
| RateLimit.FixedWindowBound | crates/api/src/rate_limit.rs:88-135 | a window that stands at any point of a run lets at most the limit through in the whole run, sweeps included |
| RateLimit.RetryAfterIsExact | crates/api/src/rate_limit.rs:88-204 | sweeps included, a refused caller is refused until exactly the moment named, whatever else is called short of clearing, and allowed at it |
| RateLimit.LockedOnlyForRecentFailures | crates/api/src/rate_limit.rs:175-231 | an account is locked only for at least the limit of its own failures within the last window |
| RateLimit.LockedExactlyAfterLimitFailures | crates/api/src/rate_limit.rs:175-231 | sweeps included, a fresh key is locked within its window if and only if that many failures were recorded, for exactly what is left of it |
| RateLimit.OtherKeysAreApart | crates/api/src/rate_limit.rs:88-231 | calls on other keys never change a key |
| RateLimit.ZeroDisables | crates/api/src/rate_limit.rs:83-92 | a limit of zero refuses nobody |
| RateLimit.Meter.SweepIdle | crates/api/src/rate_limit.rs:128-135 | drops exactly the windows that have passed, once per window |
| RateLimit.Meter.Check | crates/api/src/rate_limit.rs:88-126 | one step of the limiter, sweep included |
| RateLimit.Meter.IsLocked | crates/api/src/rate_limit.rs:175-196 | one step of the lockout check |
| RateLimit.Meter.RecordFailure | crates/api/src/rate_limit.rs:198-220 | counts a failure in the current window or opens one |
| RateLimit.Meter.Clear | crates/api/src/rate_limit.rs:222-232 | forgets the key |
| Settings.RoundTripIsIdentityUnlessAnArrayHoldsASecret | crates/api/src/settings.rs:202-257 | re-importing an export over its value gives the value back if and only if no array in it holds a credential |
| Settings.RoundTripRedactsArrays | crates/api/src/settings.rs:202-257 | exactly what the round trip gives: credentials outside arrays kept, inside arrays null |
| Settings.ProviderSecretIsLost | crates/api/src/settings.rs:202-257 | a provider secret inside an array is such a value |
| Settings.MergeIsIdempotent | crates/api/src/settings.rs:241-257 | merging the same document twice is merging it once, for all JSON |
| Settings.MergeSelf | crates/api/src/settings.rs:241-257 | a value merged over itself is unchanged |
| Settings.MergedField | crates/api/src/settings.rs:232-257 | for every field at any depth: a scalar or array of the file replaces, null and what the file does not carry leave the stored value, and what was not stored is added |
| Settings.ImportedField | crates/api/src/settings.rs:305-404 | the same for every field of every setting of the table, and settings the document does not name stay |
| Settings.NoSecretSurvives | crates/api/src/settings.rs:182-238 | after redaction no envelope is left and nothing but null stands right under a key whose last part is secret |
| Settings.ExposedExactly | crates/api/src/settings.rs:202-238 | something but null is left below a key whose whole name is secret if and only if a value there is no envelope and stands right under a key with an innocent last part |
| Settings.FlatSettingsAreSafe | crates/api/src/settings.rs:202-238 | settings without an object below a secret key and without dots in their keys leave nothing below a secret key |
| Settings.NestedSecretIsExported | crates/api/src/settings.rs:202-238 | a concrete object under `password` is exported in clear |
| Settings.DottedSecretIsExported | crates/api/src/settings.rs:223-228 | so is a concrete value under a secret key with a dotted tail |
| Settings.NoEnvelopeSurvives | crates/api/src/settings.rs:193-238 | no encrypted envelope is left at any depth under any name |
| Settings.RedactedAt | crates/api/src/settings.rs:202-238 | place by place: objects keep their keys, arrays their length and scalars their value, but for null where an envelope or a secret name is |
| Settings.RecordedAt | crates/api/src/settings.rs:202-238 | the paths on record are exactly those of the places where null was put |
| Settings.SecretNamesExactly | crates/api/src/settings.rs:177-191 | which names are secret, by what they hold or end in |
| Settings.CaseIsIgnored | crates/api/src/settings.rs:182-184 | ASCII case makes no difference to a name |
| Settings.PrefixesExactly | crates/api/src/settings.rs:164-195 | which texts are envelopes and which keys internal |
| Settings.RedactionChangesOnlySecrets | crates/api/src/settings.rs:202-238 | redaction changes a value if and only if it holds a credential |
| Settings.LeafOfChild | crates/api/src/settings.rs:202-238 | a field is judged by its own key, not by what stands above it |
| Settings.Redact | crates/api/src/settings.rs:202-238 | the recursive method with its growing list gives the redacted value and records exactly the redacted paths |
| Settings.Merge | crates/api/src/settings.rs:241-257 | the loop over imported keys is the merge function |
| Settings.SettingsStore.Export | crates/api/src/settings.rs:270-313 | every application setting, redacted, with the paths redacted and no others |
| Settings.SettingsStore.Import | crates/api/src/settings.rs:322-404 | all or nothing: a wrong version or an internal key writes nothing; otherwise every key is merged, and those whose merge comes to null are reported apart |
| Settings.ExportsAreSafe | crates/api/src/settings.rs:166-404 | an export holds no internal key, no envelope and nothing right under a key with a secret last part, and below a secret key exactly what escapes that rule; no import changes an internal row |
| Settings.StoreRoundTrip | crates/api/src/settings.rs:270-404 | exporting and importing back leaves the table as it was if and only if no application setting has a credential inside an array |
| Settings.ImportIsIdempotent | crates/api/src/settings.rs:322-404 | importing a document twice leaves what importing it once left |
| Net.ContainsIsLeadingBits | crates/core/src/net.rs:66-98 | section 3.1 of RFC 4632: contained if and only if the leading prefix bits of the 128-bit forms agree |
| Net.ContainsDropsHostBits | crates/core/src/net.rs:66-98 | the masked comparison compares what is left once the host bits are dropped |
| Net.BlockIsAlignedInterval | crates/core/src/net.rs:66-98 | a block is the aligned interval of two to the host bits around its base |
| Net.V4BlocksAreThe32BitRule | crates/core/src/net.rs:66-98 | for IPv4 the 128-bit form is the 32-bit rule |
| Net.MappedSpellingAgrees | crates/core/src/net.rs:59-90 | the mapped spelling (section 2.5.5.2 of RFC 4291) agrees in both directions, and an IPv4 block reaches no other IPv6 address |
| Net.BlocksAreNestedOrDisjoint | crates/core/src/net.rs:66-98 | any two blocks are nested or disjoint |
| Net.TrustedByAnyBlock | crates/core/src/net.rs:116-119 | a peer is trusted exactly when some block of the list covers it |
| Net.PlainPatternIsItsHost | crates/core/src/net.rs:229-239 | a pattern without a wildcard matches its host at its port alone |
| Net.Parsed | crates/core/src/net.rs:23-56 | a block is parsed exactly when its prefix is no longer than its address, which it keeps; without a prefix it contains that address alone |
| Net.WildcardIsStrictSubdomains | crates/core/src/net.rs:229-239 | a wildcard matches exactly the strict subdomains of its host, never the host |
| Client.AddressIsTheLastOutsider | crates/api/src/client.rs:22-58 | with a trusted peer the rightmost untrusted address of the header, the peer if and only if there is none; with an untrusted peer no header matters; without a peer no address |
| Client.RealIpIsTheFallback | crates/api/src/client.rs:49-53 | X-Real-IP is read exactly when there is no forwarded-for header, readable or not |
| Client.PrependedTextIsIgnored | crates/api/src/client.rs:22-58 | text before a comma is looked at only when nothing after it is an untrusted address |
| Client.HonestChainNamesTheClient | crates/api/src/client.rs:13-41 | through any chain of trusted proxies that append, an untrusted client is named by its own address whatever readable header it sent and whatever X-Real-IP says |
| Client.SearchFindsTheLastOutsider | crates/api/src/client.rs:29-58 | the right-to-left search finds the last untrusted entry, and nothing exactly when there is none |
| Client.SplitOfJoined | crates/api/src/client.rs:54-57 | splitting at commas distributes over joining with one |
| Ident.LexOfQuoted | crates/db/src/ddl.rs:17-23 | a quoted name followed by anything but a quote is read back as that name; only the empty name is refused |
| Ident.ListRoundTrips | crates/db/src/backup.rs:1496-1500 | a comma-joined list of quoted names is read back as exactly those names |
| Ident.ListsAreInjective | crates/db/src/backup.rs:1496-1500 | so two different lists are never written alike |
| Ident.LexOfRender | crates/db/src/ddl.rs:17-23 | a statement of names and quote-free text is read as those names and that text |
| Ident.UpsertWrites | crates/db/src/backup.rs:1479-1514 | the text built for a record is the rendering of its pieces |
| Ident.AllButTheKeyAreAssigned | crates/db/src/backup.rs:1479-1490 | the key is never assigned on conflict, and every other column is, in order |
| Ident.StatementIsSpelled | crates/db/src/backup.rs:1502-1514 | the fixed words of the statement, and nothing to do on conflict exactly when only the key is declared |
| Ident.UpsertReadsAsIntended | crates/db/src/backup.rs:1479-1514 | read back, the statement holds the table, the columns twice, the table and the key, and every other column twice, and no other name |
| Ident.NamesNeverEscape | crates/db/src/backup.rs:1479-1514 | read back, the statement around the names depends on how many columns there are and not on any name |
| Ident.IndexNamesAgreeExactly | crates/db/src/ddl.rs:25-44 | two uncut names agree if and only if the indexes are one, or the longer table continues the shorter at an underscore with the start of its column |
| Ident.IndexNamesDifferWithinATable | crates/db/src/ddl.rs:25-44 | uncut names of one table, or of tables without underscores, are injective |
| Ident.UncutNameIsSpelled | crates/db/src/ddl.rs:29-33 | a short index name is spelled from table and column |
| Ident.CutIndexNamesAgreeExactly | crates/db/src/ddl.rs:25-44 | every name fits; two cut names agree if and only if their first 54 characters and digests do, and a cut one with an uncut one only when that is 63 long and spells the same |
| Ident.IndexNamesCollide | crates/db/src/ddl.rs:25-44 | a concrete pair of tables and columns with one index name |
| Crons.NoOccurrenceIsClaimedTwice | crates/api/src/crons.rs:352-413 | in every interleaving two claims of a job answer for different occurrences, the later one due after the earlier claim, so missed occurrences make one claim; locks never overlap |
| Crons.StepKeepsInv | crates/api/src/crons.rs:197-413 | every prompt step of nodes, manual runs and edits keeps the schedule ahead of every claim |
| Crons.RunKeepsInv | crates/api/src/crons.rs:197-413 | so does every prompt run |
| Crons.WriteIsSafeExactly | crates/api/src/crons.rs:197-325 | after a manual run or edit has written, no prompt continuation claims anything twice if and only if the row is switched off or its moment is later than every claim of the job; a prompt write always is |
| Crons.WriteTouchesItsRow | crates/api/src/crons.rs:216-236 | a manual run keeps the switch and an edit sets it; both write their own row alone, and nothing when it is gone |
| Crons.DeletedJobsAreNotClaimed | crates/api/src/crons.rs:253-264 | a deleted job is never claimed again, whatever comes |
| Crons.CreatedJobIsClaimedWhenDue | crates/api/src/crons.rs:142-180 | a job created switched on is claimed when its moment comes |
| Crons.StaleWriteClaimsTwice | crates/api/src/crons.rs:299-325 | a concrete run: a moment computed before a claim and written after it is claimed a second time |
| Crons.UncommittedWorkIsInvisible | crates/api/src/crons.rs:377-413 | whatever a node selected, locked and advanced without committing, the others run and end as if it had not been there |
| Crons.CronTable.Advance | crates/api/src/crons.rs:43-46 | moves one row to the moment given |
| Crons.CronTable.Select | crates/api/src/crons.rs:384-394 | the earliest due unlocked rows in order, as many as the limit allows |
| Crons.BatchInFields | crates/api/src/crons.rs:384-394 | the selection in the rows’ own fields: enabled, due, unlocked, the earliest first, and none left behind that comes before one taken |
| Crons.CronTable.ClaimDue | crates/api/src/crons.rs:377-413 | claims those rows, moves each to its expression’s answer, changes no other row and leaves no claimed row due |
| Payload.CollectionRoundTrips | crates/db/src/backup.rs:76-171 | a collection survives its own document up to absent options and null rules |
| Payload.ReadIsSettled | crates/db/src/backup.rs:109-171 | what was read needs no further settling; a populated `fields` wins over `schema` |
| Payload.CollectionReadsExactly | crates/db/src/backup.rs:109-171 | which objects are collections, and what is read from one, member by member |
| Payload.PositionalCollectionReads | crates/db/src/backup.rs:119-141 | an array is read as its members in order, and nothing else that is no object |
| Payload.DocumentHasSixMembers | crates/db/src/backup.rs:88-107 | a collection is always written with the same six members |
| Payload.FoldingKeepsOptions | crates/db/src/backup.rs:142-155 | folding a view definition in adds exactly its query and its builder, and never replaces an option that is there |
| Payload.PayloadRoundTrips | crates/db/src/backup.rs:353-444 | writing and reading restores every definition and its records; with distinct names the manifest totals are the record counts |
| Payload.ReadingIsStableExactly | crates/db/src/backup.rs:353-444 | a document that was read is stable under writing and reading if and only if no repeated name hides records |
| Payload.PayloadReadsExactly | crates/db/src/backup.rs:384-396 | which documents are read: a list of collections, or an object holding one, and a bare list as that object |
| Payload.ItemsAllOrNothing | crates/db/src/backup.rs:384-396 | a payload is read exactly when every entry is a collection |
| Ndjson.Write | crates/db/src/backup.rs:724-761 | the nested loops give the entries, manifest first, one line per record |
| Ndjson.EntriesExactly | crates/db/src/backup.rs:724-755 | which entries there are, in order and by name |
| Ndjson.OneRecordPerLine | crates/db/src/backup.rs:737-748 | the lines of an entry are the printed records, one each |
| Ndjson.Read | crates/db/src/backup.rs:787-839 | the reading loops are the reading function, errors included |
| Ndjson.ReadLines | crates/db/src/backup.rs:812-827 | the loop over lines gives the records or the number of the first bad line |
| Ndjson.FirstBadLineIsNamed | crates/db/src/backup.rs:812-827 | reading fails exactly when a line that is not blank is not JSON, and names the first such line |
| Ndjson.LinesExactly | crates/db/src/backup.rs:812 | what ends a line |
| Ndjson.BlankLinesAreSkipped | crates/db/src/backup.rs:812-816 | a blank line gives no record and is counted |
| Ndjson.ReadFailsExactly | crates/db/src/backup.rs:787-839 | each refusal and what it names, and what is read when there is none |
| Ndjson.RecordsReadExactly | crates/db/src/backup.rs:802-832 | a collection without an entry has no records; a bad line is named with its entry |
| Ndjson.SchemaReadsExactly | crates/db/src/backup.rs:800 | which documents are a schema |
| Ndjson.ReadCollections | crates/db/src/backup.rs:802-832 | the loop over the definitions gives one data entry each |
| Ndjson.RecordsRoundTrip | crates/db/src/backup.rs:737-827 | records written one per line are read back, for any printer whose lines stay lines |
| Ndjson.ArchiveRoundTrips | crates/db/src/backup.rs:724-839 | reading what was written gives the manifest, the settled definitions and each definition’s records |
| Ndjson.RoundTripIsIdentityExactly | crates/db/src/backup.rs:724-839 | the archive comes back unchanged if and only if its definitions are settled and its data entries follow them |
| Ndjson.ManifestIsCheckedFirst | crates/db/src/backup.rs:783-803 | a foreign or newer manifest gives the same refusal whatever else the archive holds |
| Records.LastWriteWins | crates/db/src/backup.rs:1390-1521 | every cell holds what the last record carrying its id and column says, else what it held, else the default; other rows are untouched and none is removed |
| Records.UpsertRows | crates/db/src/backup.rs:1451-1521 | one record inserts its row or updates only the declared columns of the row with its id, never the id |
| Records.RecordAppliesExactly | crates/db/src/backup.rs:1451-1521 | a record applies exactly when it has an id, casts, and the row it would insert and the row it leaves are admissible and accepted, cell by cell; and which error it gives otherwise |
| Records.UnconstrainedRecordApplies | crates/db/src/backup.rs:1451-1521 | a record that casts always applies when no constraint objects |
| Records.AppliedStopsAtTheFirstFailure | crates/db/src/backup.rs:1423-1426 | records apply in order up to the first that does not |
| Records.WhatIsLeftIsAccepted | crates/db/src/backup.rs:1423-1426 | what an application leaves was accepted, or is what there was |
| Records.ReapplyingChangesNothing | crates/db/src/backup.rs:1446-1521 | a second application that succeeds changes nothing |
| Records.ImportIsIdempotent | crates/db/src/backup.rs:1446-1521 | without repeated ids the second application succeeds and changes nothing |
| Records.RowsComeBack | crates/db/src/backup.rs:1390-1521 | rows taken out as records and put into the emptied table are the rows there were |
| Import.WritableExactly | crates/db/src/backup.rs:255-306 | what an import writes is exactly what the archive names and is not a system collection |
| Import.WritableFollowsTheArchive | crates/db/src/backup.rs:255-306 | what is written follows the archive’s order |
| Import.SkippedFollowsTheArchive | crates/db/src/backup.rs:262-266 | so does what is skipped |
| Import.DefinitionIsTheFirst | crates/db/src/backup.rs:1219-1227 | a name stands for the first definition of it |
| Import.RecordsInIsTheCount | crates/db/src/backup.rs:1004-1033 | the records counted are those the archive has |
| Import.EveryCollectionIsSettled | crates/db/src/backup.rs:1128-1172 | under `per_collection` and `continue` every collection is reported exactly once, with all its records in its table or its table untouched |
| Import.PerCollectionStopsAtTheFirstFailure | crates/db/src/backup.rs:1128-1172 | `per_collection` is `continue` up to the first collection that cannot be applied, and nothing after |
| Import.ErrorsExactly | crates/db/src/backup.rs:1128-1172 | in both modes the report has errors if and only if some collection could not be applied or committed |
| Import.PerCollectionReportsErrors | crates/db/src/backup.rs:1128-1172 | a concrete archive that fills the errors under `per_collection`, the second collection as not attempted, and under `continue` |
| Import.ReportCountsWhatWasWritten | crates/db/src/backup.rs:1194-1218 | a line of the report counts the records its table was given if and only if it is no view or the archive has none for it |
| Import.ViewRecordsAreReported | crates/db/src/backup.rs:1194-1218 | a view with a record is reported as one record imported in every mode, with nothing written |
| Import.BatchIsAllOrNothing | crates/db/src/backup.rs:1115-1127 | under `batch` all records land or none do, and they land exactly when every collection applies and the one commit succeeds |
| Import.ThroughExactly | crates/db/src/backup.rs:1115-1127 | one transaction goes through exactly when every collection applies, one after the other |
| Import.ApplyToLands | crates/db/src/backup.rs:1389-1429 | one collection’s records reach its own table and no other |
| Import.AppliedExactly | crates/db/src/backup.rs:1389-1429 | when one collection’s records apply and why they do not |
| Import.AppliedTablesAreAccepted | crates/db/src/backup.rs:1389-1429 | no collection leaves tables that the constraints refuse |
| Import.AttemptSaysWhy | crates/db/src/backup.rs:1133-1153 | what an attempt adds to the report |
| ImportRun.ImportTouchesOnlyItsOwn | crates/db/src/backup.rs:1052-1192 | whatever the archive and mode: system collections are never written or dropped, unnamed collections stay unless dropping was asked for, and an unconfirmed large import changes nothing |
| ImportRun.DropsExactlyTheUndeclared | crates/db/src/backup.rs:1325-1356 | the collections reported as removed are exactly the user collections the archive does not name, and their tables are gone; no table it names is dropped |
| ImportRun.DefinitionsAreApplied | crates/db/src/backup.rs:1079-1103 | every name before the first refused one stands for exactly what its definition makes of what there was, new or not; that one says why, and nothing from it on changes |
| ImportRun.ImportDefinesAndFills | crates/db/src/backup.rs:1052-1192 | a whole import that ends: every writable name defined, reported once, and its records in the table so defined exactly when reported as imported |
| ImportRun.PreflightExactly | crates/db/src/backup.rs:1004-1042 | what the preflight lists and counts |
| ImportRun.Plan | crates/db/src/backup.rs:283-306 | one action per collection of the archive and none for any other |
| ImportRun.Foresee | crates/db/src/backup.rs:1004-1042 | the preflight counts what would be written and lists what is skipped |
| ImportRun.Database.ApplyRecords | crates/db/src/backup.rs:1389-1429 | the loop over records is the function, failures included |
| ImportRun.Database.ApplyBatch | crates/db/src/backup.rs:1115-1127 | the batch transaction is the record phase; a failure rolls everything back |
| ImportRun.Database.ApplyEach | crates/db/src/backup.rs:1128-1172 | the loop of transactions is the record phase, report included |
| ImportRun.Database.Abandon | crates/db/src/backup.rs:1155-1166 | the rest is reported as not attempted, each name once |
| ImportRun.Database.Define | crates/db/src/backup.rs:1079-1103 | the loop over definitions is the function, up to the first failure |
| ImportRun.Database.DropUndeclared | crates/db/src/backup.rs:1331-1356 | the drop loop is the function |
| ImportRun.Database.Run | crates/db/src/backup.rs:1052-1192 | gate, definitions, records and drops in this order |
| Restore.ExportThenRestore | crates/db/src/backup.rs:457-670 | export, document, any change of rows, row phase: every table has the rows it was exported with and its triggers on, if and only if the snapshot has no view; otherwise nothing changes |
| Restore.RestoreBringsBack | crates/db/src/backup.rs:535-570 | the same from any snapshot that holds the rows, independent of what the tables held |
| Restore.SnapshotIs | crates/db/src/backup.rs:353-444 | the document of an export read back holds its definitions and rows in place |
| Restore.ExportExactly | crates/db/src/backup.rs:587-670 | what an export holds and counts |
| Restore.RowsAreDumped | crates/db/src/backup.rs:598-624 | a table’s rows are exported one record each, and a view’s are not |
| Restore.UserCollectionsExactly | crates/db/src/backup.rs:595-598 | no system collection is exported and every other is, in order |
| Restore.RowPhaseFailsExactly | crates/db/src/backup.rs:535-570 | when the row phase fails and why, what it reports when it does not, and that a failure changes nothing |
| Restore.UnknownTypeIsRefused | crates/db/src/backup.rs:518-532 | an unknown type is refused before anything is done |
| Restore.Server.Export | crates/db/src/backup.rs:587-670 | the export loop gives every user collection, the rows of its tables and the totals |
| Restore.Server.DisableTriggers | crates/db/src/backup.rs:536-541 | switches off exactly the named tables’ triggers |
| Restore.Server.DeleteRows | crates/db/src/backup.rs:542-548 | empties exactly the named tables |
| Restore.Server.InsertRows | crates/db/src/backup.rs:549-561 | applies the snapshot’s records table by table up to the first failure |
| Restore.Server.EnableTriggers | crates/db/src/backup.rs:562-568 | switches them on for every name, and fails at the first that is no table |
| Restore.Server.RestoreRows | crates/db/src/backup.rs:535-570 | the row phase; a failure at any point leaves tables and triggers as they were |

## Left out

- Import.EveryCollectionIsSettled: for distinct collection names; an archive that repeats a name attempts it again with
  the first one's records. The same holds of Import.BatchIsAllOrNothing.
- Timestamp.LongYearsSortByTheirLeadingDigits: says nothing of two years beyond 9999, nor of negative years.
- Restore.ExportThenRestore: for tables whose columns are as they were at the export, and a commit that succeeds.
- Ndjson.RoundTripIsIdentityExactly: for distinct entry names, which the container requires.
- HTTP handlers, routing, extractors, CORS, event streams, command line and boot code: wiring without a hard invariant.
- Mail, OAuth providers, object storage, image resizing and hooks: calls to what is not part of this model.
- Password hashing, encryption, signing and randomness: abstract, as above.
- The definition and drop phases of `restore_snapshot`, which run before the row phase; what a definition does to the
  columns of a table is not part of this model.
- `fields_removed` in the import report, and the messages of errors; an error is its kind.
- The server version and the time in a manifest; the upload entry is empty, as the code writes it.
- Connections that fail when a transaction begins: an import then ends early with what was committed before it.
- Truncation of identifiers to 63 bytes by Postgres itself; names are validated before they are quoted.
- Text as bytes: strings are sequences of characters, and lengths of identifiers count characters, which are bytes for
  the ASCII names the validation admits.
- The upsert's SQL and its effect are modelled apart: `Ident` reads the text, `Records` states what the statement does.
- Overflow of 64-bit day counts and seconds: the calendar is proved over all integers.
- The single-use tables for one-time passwords, OAuth flows and the first superuser: the claim-once idea of sessions
  with less state.
- Pagination, status codes, validation of input and environment parsing: easy members.
- The parsing of lists of blocks and of host patterns from text, and the table of public addresses.
- Execution of a claimed cron action: it happens at most once after its commit and can be lost in a crash.
