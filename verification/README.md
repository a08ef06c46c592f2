# Verified model of the multi-tenant ERP back end

A Dafny model of the parts of this NestJS back end that hold real state machines, arithmetic and round trips, with
machine-checked properties of that model. `dafny verify dfyconfig.toml` checks all of it.

| component | modules |
|---|---|
| cron expressions, the next-run search and the report scheduler | `Calendar`, `CronHelper`, `CronFields`, `CronBounds`, `CronIntervals`, `ReportScheduler`, `SchedulerRuns` |
| rate limits and usage quotas | `Instants`, `SlidingWindow`, `FixedWindow`, `UsageQuota` |
| linking a WhatsApp phone to a tenant and user | `WhatsAppTables`, `WhatsAppLinking`, `WhatsAppAgreement` |
| ETL batches, bulk statements and quarantine retries | `EtlTransform`, `BulkUpsert`, `EtlService`, `QuarantineService`, `QuarantineLineage` |
| anomaly statistics | `PaymentAnomalies`, `SpikeAnomalies` |
| the audit hash chain | `AuditChain` |
| CSV export and import | `CsvExport`, `CsvImport` |
| tenant migrations and versioned activation | `TenantMigrations`, `MigrationSafety`, `VersionLedger`, `PromptVersions`, `ModelConfigs` |

`Strings` and `Wrappers` hold the JavaScript string operations and the outcome types the others share.

How the model is built:

- A service that updates state is a class; its methods are proved against functions of the old state, and the results
  about runs and interleavings are lemmas about those functions. Tables are maps and sequences.
- A transaction is one atomic step and is rolled back when it throws. Steps of different handlers interleave freely,
  and a handler stops by taking no further step. In a migration file, which may end its transaction itself, every
  statement is a step.
- Clocks, random draws, server failures, the cipher, the hash, `parseFloat`, `toUpperCase` and the date parser are
  parameters. What a result needs of them stands in its `requires` clause: a clock that does not go back, a hash without
  collisions, an exact root.
- Instants are milliseconds. The calendar is the UTC one, defined day by day and proved equal to the closed form of the
  ECMAScript specification.

## What the proofs found

- Cron hour `7` also fires at 00:00, because the lone text `7` stands for 0 in every field, not only in day-of-week
  (`CronIntervals.SimpleAsDocumentedExactly`). Sevens inside a list, range or step, and the text `07`, never match a
  Sunday (`CronBounds.HasWeekdayExactly`).
- The 366-day scan is exactly tight for yearly dates (`CronBounds.ScanLimitTight`). A leap-day schedule passes
  validation when it is created, but a later search can be rejected; the rejection leaves the `finally` block, so the
  tenant's later schedules are not run in that tick nor in any following one (`SchedulerRuns.LeapDayStarves`).
- The comment of `resolve` says the default is daily at 08:00; the code gives Monday at 08:00, and the model follows it.
- An expression that restricts both day-of-month and day-of-week can pass validation and be rejected for weeks
  (`CronBounds.FridayThirteenthRejected`). The scheduler is fair exactly with expressions that the search does not accept
  from one instant and reject from another (`SchedulerRuns.FairExactly`).
- The sliding-window script over-admits when a random member name coincides with a live one
  (`SlidingWindow.RepeatedMemberOverAdmits`).
- The in-memory limiter allows one admission fewer per interval than twice its limit, the minute-aligned counter
  exactly twice its limit; both bounds are reached.
- A quota call that stops before its compensating decrement costs one unit of a limit that is raised later
  (`UsageQuota.StoppedCallCostsRaisedLimit`, `UsageQuota.RefusedExactly`).
- Session and registry of a phone can name different users: after overlapping link handlers, after a relink that stops
  between its two writes, and after a message handler that writes the session with a registry row it read before a
  relink (`WhatsAppAgreement`). They agree exactly in the runs that avoid these (`WhatsAppAgreement.OrderlyExactly`).
- A submitted code consumes every tenant's live row of that code, and can link the phone to another tenant's user
  (`WhatsAppLinking.IssuerIsLinkedExactly`).
- One accepted row with a repeated `external_id`, a date that does not parse or lies before the first timestamp, or a
  status naming an inherited member fails the whole batch: nothing is synced, nothing is quarantined, and retrying cannot
  help (`EtlService.CommitsExactly`, `EtlService.RefusedBatchNeverCommits`).
- The upload lets 10,000 rows in, but a batch of more than 6,553 accepted rows needs more parameters than one statement
  can have and always fails (`EtlService.LargeBatchNeverCommits`, `EtlService.GoodRowsCommitExactly`).
- A batch retry of quarantined records with one bad row keeps all the old records and adds a second one for the bad row
  (`QuarantineService.GroupDeletedExactly`).
- A status text that names an inherited member of the lookup object is not mapped to a status
  (`EtlTransform.StatusCanEscape`).
- The comment above the employee upsert says nine columns per row; the code has ten and strides by ten.
- The CSV writer does not quote a cell for a line break alone, and a one-column table ending in an empty cell is
  ambiguous (`CsvExport.WriteReadRoundTrip`). The upload reader does not undo quoting and skips empty lines
  (`CsvImport.TableImportedExactly`).
- The audit chain fixes the hashed text of every row, but not which field its characters stand in: separators in action,
  type or agent can be read in another way, those in the metadata cannot (`AuditChain.DeterminedExactly`,
  `AuditChain.SeparatorHidesFields`).
- A migration that changes something and ends the runner's transaction itself can leave changes without their record, or
  a record without its changes; no other migration can (`MigrationSafety.AppliedIsRecorded`).
- A prompt rollback never goes further back than one version, and a rollback onto a template without its placeholders
  is undone by the next read (`PromptVersions.RollbackToIncompleteIsUndone`).

## Model

| member | source | states |
|---|---|---|
| CronHelper.CronFaultMeaning | src/reports/cron-helper.service.ts:85-158 | validation accepts exactly five valid fields; otherwise it names the count or the first bad field with its first failing check |
| CronHelper.Validate | src/reports/cron-helper.service.ts:85-158 | the loop over fields and list parts throws exactly that first fault |
| CronHelper.Scan | src/reports/cron-helper.service.ts:166-194 | the minute-by-minute scan terminates and returns the least matching whole minute of its 366-day window, or rejects because none matches |
| CronHelper.NextRunAfter | src/reports/cron-helper.service.ts:166-194 | the same as a function of expression and start |
| CronHelper.OutcomeIsLeast | src/reports/cron-helper.service.ts:166-220 | the result is the least firing instant strictly after the start; rejection happens exactly when the window holds none |
| CronHelper.OutcomeUnique | src/reports/cron-helper.service.ts:166-194 | a search has one outcome only |
| CronHelper.OutcomeExists | src/reports/cron-helper.service.ts:166-194 | a search of a valid expression always has an outcome |
| CronFields.PrintedFieldMatches | src/reports/cron-helper.service.ts:198-220 | a star, step, range, list or single field matches exactly the values it stands for, a step being an arithmetic progression |
| CronFields.PrintedFieldValid | src/reports/cron-helper.service.ts:103-157 | validation accepts such a field exactly when its numerals are in bounds, its step positive and its range in order |
| CronFields.PrintedFieldFault | src/reports/cron-helper.service.ts:103-157 | and otherwise it names the failing check of each form, in the order of the checks |
| CronFields.PrintedCronFields | src/reports/cron-helper.service.ts:85-86 | five such fields printed with blanks between them split back into these fields |
| CronFields.PrintedCronValid | src/reports/cron-helper.service.ts:85-158 | the expression is valid exactly when each field is, within 0-59, 0-23, 1-31, 1-12 and 0-7 |
| CronFields.PrintedSearchExactly | src/reports/cron-helper.service.ts:166-220 | the search returns exactly the least whole minute of the window whose minute, hour, day, month and weekday each lie in what their field stands for, a step counting from 0, 0, 1, 1 and 0; it rejects exactly when no minute does |
| Calendar.DayNumberOfCivil | src/reports/cron-helper.service.ts:180-184 | the day-by-day UTC calendar behind the getters agrees with the one counting years and months |
| Calendar.CivilOfDayNumber | src/reports/cron-helper.service.ts:180-184 | every valid date is the date of its own day number |
| Calendar.DayFromYearClosedForm | src/reports/cron-helper.service.ts:182-184 | year starts equal the closed form of the ECMAScript specification |
| Calendar.CivilRepeats | src/reports/cron-helper.service.ts:180-184 | the same date comes 400 years, a whole number of weeks, later |
| CronBounds.FirstValueMatches | src/reports/cron-helper.service.ts:198-220 | the first numeral of a valid field is in range and matches, so minute, hour, day and month fields can be met |
| CronBounds.HasWeekdayExactly | src/reports/cron-helper.service.ts:217-219 | a valid day-of-week field names a weekday exactly when it is not made of sevens only |
| CronBounds.WeeklyNeverRejects | src/reports/cron-helper.service.ts:166-194 | with day-of-month and month free the search never rejects exactly when some weekday is named, and then takes at most 7 days |
| CronBounds.MonthlyNeverRejects | src/reports/cron-helper.service.ts:166-194 | with day-of-week and month free the search never rejects, and it succeeds within 31 days from every start exactly when some allowed day is at most 28 |
| CronBounds.YearlyNeverRejects | src/reports/cron-helper.service.ts:166-194 | with day-of-week free the search never rejects exactly when some allowed date exists in every year |
| CronBounds.ScanLimitTight | src/reports/cron-helper.service.ts:176 | a yearly schedule can need the very last minute of the 366-day scan |
| CronBounds.LeapDayRejected | src/reports/cron-helper.service.ts:191-193 | a valid leap-day schedule is rejected from every instant of a common year before another |
| CronBounds.FridayThirteenthRejected | src/reports/cron-helper.service.ts:191-193 | a valid expression that restricts day-of-month and day-of-week is rejected for 61 days when Fridays the 13th are 427 days apart |
| CronBounds.Friday1999 | src/reports/cron-helper.service.ts:176-193 | such a gap begins on 13 August 1999 |
| CronBounds.SearchRepeats | src/reports/cron-helper.service.ts:166-194 | 400 years later the search has the same outcome, 400 years later |
| CronIntervals.SimpleFieldsReadBack | src/reports/cron-helper.service.ts:54-74 | the printed text of a simple schedule splits back into its five fields |
| CronIntervals.ResolveIsValid | src/reports/cron-helper.service.ts:32-49 | whatever resolve returns is valid, and without advanced text it never fails |
| CronIntervals.ResolveMeans | src/reports/cron-helper.service.ts:32-49 | advanced text comes back trimmed, or is refused with its own fault; else the interval with defaults hour 8, Monday and day 1; else Monday at 08:00 |
| CronIntervals.SimpleFiresAt | src/reports/cron-helper.service.ts:54-74 | a simple schedule fires at its documented minutes, and with hour 7 also at midnight of the same days |
| CronIntervals.SimpleAsDocumentedExactly | src/reports/cron-helper.service.ts:217-219 | it fires exactly as documented if and only if its clamped hour is not 7 |
| CronIntervals.SimpleNeverRejects | src/reports/cron-helper.service.ts:54-74 | every simple schedule is found within 7 days, or 31 when monthly |
| ReportScheduler.ReportSchedulerService.ProcessSchedules | src/reports/report-scheduler.service.ts:110-212 | a tick runs the due rows in order, advances each, and throws exactly when some search is rejected, leaving the later rows alone |
| ReportScheduler.ReportSchedulerService.RunSchedules | src/reports/report-scheduler.service.ts:122-124 | the loop over the due rows, for any search that gives the cron helper's answers |
| ReportScheduler.TickAdvances | src/reports/report-scheduler.service.ts:52-58 | without a rejection every due row gets its next run and last run, and no other row changes |
| ReportScheduler.TickRunsAllExactly | src/reports/report-scheduler.service.ts:122-124 | all selected reports are generated exactly when no row before the last one is rejected |
| ReportScheduler.NeverEarly | src/reports/report-scheduler.service.ts:40-50 | every generated report was due at the tick |
| ReportScheduler.DueRowsExactly | src/reports/report-scheduler.service.ts:40-50 | the tick takes exactly the active rows whose next run has come, whether run before or not, earliest first, and the 50 earliest when there are more |
| SchedulerRuns.WaitingShrinksAhead | src/reports/report-scheduler.service.ts:40-58 | while an active schedule whose next run has come waits, the distinct schedules ahead of it shrink by 50 per tick and no edit adds to them |
| SchedulerRuns.DueScheduleIsRun | src/reports/report-scheduler.service.ts:79-127 | fairness: with r schedules ahead, an active schedule whose next run has come is run within floor(r/50)+1 ticks, whether run before or not |
| SchedulerRuns.NextRunIncreases | src/reports/report-scheduler.service.ts:194-203 | over a run the next run never moves back, and running a schedule moves it strictly forward |
| SchedulerRuns.SafeRunHasNoRejection | src/reports/report-scheduler.service.ts:197 | tables and edits with only never-rejected expressions keep every tick free of rejections |
| SchedulerRuns.FairExactly | src/reports/report-scheduler.service.ts:122-203 | over all tables the controller can bring about from the empty one, the scheduler is fair with a set of expressions if and only if the search accepts none of them from one instant and rejects it from another |
| SchedulerRuns.LeapDayWavers | src/reports/reports.controller.ts:117-125 | the leap-day expression is accepted from one instant and rejected from another |
| SchedulerRuns.RejectionStarvesOthers | src/reports/report-scheduler.service.ts:122-124 | while the earliest due schedule is rejected, no other schedule is ever run |
| SchedulerRuns.LeapDayStarves | src/reports/report-scheduler.service.ts:194-203 | the concrete case of a due leap-day schedule through a common year |
| SlidingWindow.SlidingWindowLimiter.Eval | src/chat/guardrails/rate-limiter.service.ts:22-35 | one evaluation with key expiry equals the script step, and returns 1 or 0 |
| SlidingWindow.RunIsSound | src/chat/guardrails/rate-limiter.service.ts:22-35 | over every run that admits nothing under a live member, the live set counts exactly the admissions of the window |
| SlidingWindow.WindowBound | src/chat/guardrails/rate-limiter.service.ts:27-33 | every half-open window holds at most limit admissions |
| SlidingWindow.DecidesByCount | src/chat/guardrails/rate-limiter.service.ts:28-34 | a request is admitted exactly when fewer than limit admissions lie in its window, and refused only when exactly limit do |
| SlidingWindow.CountsExactly | src/chat/guardrails/rate-limiter.service.ts:27-31 | the live set counts the admissions all along a run if and only if none is made under a live member |
| SlidingWindow.RepeatedMemberOverAdmits | src/chat/guardrails/rate-limiter.service.ts:30 | for every limit and window, an admission under a live member lets requests of the same instant through until the window holds one admission more than the limit |
| SlidingWindow.ExpiryKeepsState | src/chat/guardrails/rate-limiter.service.ts:31 | before its deadline the key holds the never-expiring set, and at the deadline nothing in that set is live |
| SlidingWindow.ExpirySpanIs | src/chat/guardrails/rate-limiter.service.ts:31 | the deadline lies a whole number of seconds ahead, the least that covers the window |
| SlidingWindow.ExpiryInvisible | src/common/shared/redis.ts:10-25 | a limiter whose key expires makes exactly the decisions of one whose key does not |
| FixedWindow.ProductionRateLimitGuard.CheckMemory | src/common/guards/production-rate-limit.guard.ts:90-111 | one request against its record; other keys keep theirs |
| FixedWindow.LazyIntervalBound | src/common/guards/production-rate-limit.guard.ts:90-111 | any closed interval of one window length holds at most 2*limit-1 admissions |
| FixedWindow.LazyWindowBound | src/common/guards/production-rate-limit.guard.ts:97-107 | the window last opened holds at most limit admissions |
| FixedWindow.LazyBoundTight | src/common/guards/production-rate-limit.guard.ts:97-107 | the interval bound is reached for every positive limit and window |
| FixedWindow.TenantRateLimitGuard.CanActivate | src/common/guards/tenant-rate-limit.guard.ts:25-79 | one request against its minute's counter and the plan's limit of 60, 120 or 300 |
| FixedWindow.CounterNeverForgets | src/common/guards/tenant-rate-limit.guard.ts:62-67 | a minute's counter equals the requests of that minute, so its 60 s expiry is invisible |
| FixedWindow.AlignedMinuteBound | src/common/guards/tenant-rate-limit.guard.ts:64-79 | each minute admits exactly its first limit requests |
| FixedWindow.AlignedIntervalBound | src/common/guards/tenant-rate-limit.guard.ts:60-70 | any closed interval of one minute holds at most 2*limit admissions |
| FixedWindow.AlignedBoundTight | src/common/guards/tenant-rate-limit.guard.ts:60-70 | that bound is reached for every limit |
| UsageQuota.FeatureFlagService.UpsertUsage | src/subscription/feature-flag.service.ts:75-83 | the upsert returns one more than the counter was, and the counters of other keys stay |
| UsageQuota.FeatureFlagService.CheckAndIncrement | src/subscription/feature-flag.service.ts:149-193 | undisturbed, a call is an atomic test-and-increment with its three outcomes |
| UsageQuota.RunKeepsInvariant | src/subscription/feature-flag.service.ts:168-192 | in every interleaving used equals admissions plus pending decrements, pending ones only once the limit is full |
| UsageQuota.AdmissionsBounded | src/subscription/feature-flag.service.ts:149-193 | from zero usage admissions never pass the limit, and at quiescence used equals admissions |
| UsageQuota.RunRefinesAtomic | src/subscription/feature-flag.service.ts:149-193 | the verdicts of every interleaving are those of an atomic limiter taking the calls in upsert order |
| UsageQuota.RefusedOnlyWhenFull | src/subscription/feature-flag.service.ts:178-192 | under fixed limits a call is refused exactly when its limit is already fully admitted |
| UsageQuota.RunKeepsAccount | src/subscription/feature-flag.service.ts:149-193 | over every run under changing limits used equals admissions plus pending decrements, and admissions never pass the highest limit seen |
| UsageQuota.RefusedExactly | src/subscription/feature-flag.service.ts:168-192 | after every such run a call is refused exactly when admissions and pending decrements together reach the limit it sees |
| UsageQuota.StoppedCallCostsRaisedLimit | src/subscription/feature-flag.service.ts:178-185 | for every limit, a run that leaves one decrement pending, after which a call under a limit raised by one is refused although it is not fully admitted |
| WhatsAppTables.WhatsAppService.InsertOtp | src/whatsapp/whatsapp.service.ts:419-429 | a code is inserted exactly when its tenant exists and has no unused row of it |
| WhatsAppTables.InsertableExactly | src/database/migrations/system/1705000000014-WhatsAppOtpPublic.ts:28-49 | the foreign key and the partial unique index refuse exactly the rows of an unknown tenant and those whose tenant has the code unused |
| WhatsAppTables.WhatsAppService.ConsumeOtp | src/whatsapp/whatsapp.service.ts:336-345 | the update stamps and returns exactly the rows of the code that are unused and expire later, and leaves every other row as it was |
| WhatsAppTables.WhatsAppService.HandleOtpSubmission | src/whatsapp/whatsapp.service.ts:608-685 | undisturbed, a submission is refused as invalid exactly when no row of the code is unused and unexpired; else it links session and registry to such a row; nothing else changes but the stamps, and an expired row is never stamped |
| WhatsAppTables.ConsumedStaysUsed | src/whatsapp/whatsapp.service.ts:336-345 | a consumed code has no live row at any later instant |
| WhatsAppTables.ConsumesOneRowExactly | src/whatsapp/whatsapp.service.ts:336-345 | a submission consumes one row exactly when no two tenants hold the same live code |
| WhatsAppTables.GeneratedCodeIsRecognised | src/whatsapp/whatsapp.service.ts:536-540 | every code generateOtp can draw is dispatched as that code |
| WhatsAppTables.ClassifyExactly | src/whatsapp/whatsapp.service.ts:524-545 | a trimmed text of six digits is a code, one of the letters of help in any case asks for help, every other is chat |
| WhatsAppLinking.TransactionKeepsDatabase | src/whatsapp/whatsapp.service.ts:608-743 | every transaction of every handler keeps sessions and registry honest |
| WhatsAppLinking.TransactionWrites | src/whatsapp/whatsapp.service.ts:552-743 | which handler step writes which table, and what: stamps, session and registry row, field by field |
| WhatsAppLinking.TransactionLeads | src/whatsapp/whatsapp.service.ts:524-743 | which reply or next step each handler step leads to, field by field |
| WhatsAppLinking.RunKeepsInvariant | src/whatsapp/whatsapp.service.ts:524-743 | every interleaving with handlers stopping anywhere keeps the invariant of tables and handlers |
| WhatsAppLinking.LinkingIsSafe | src/whatsapp/whatsapp.service.ts:524-707 | over every run a registry row's schema is its tenant's, its session has a user, every registration goes back to a code that was consumed before it expired and proves tenant and user, and the session-error, not-linked and tenant-not-found replies never occur |
| WhatsAppLinking.RegisteredPhoneReachesLlm | src/whatsapp/whatsapp.service.ts:542-598 | a message of a registered phone whose handler is not stopped is routed as a proven tenant and user |
| WhatsAppLinking.IssuerIsLinkedExactly | src/whatsapp/whatsapp.service.ts:336-345 | a submission proves the user its live row was issued to, whichever row is returned first, exactly when that row is the only live one of the code; else it can prove another tenant's user |
| WhatsAppAgreement.OrderlyRunAgrees | src/whatsapp/whatsapp.service.ts:608-743 | over every orderly run, stops included, session and registry of a phone disagree exactly while a relink is between its two writes, so they agree whenever no handler of the phone is |
| WhatsAppAgreement.OrderlyExactly | src/whatsapp/whatsapp.service.ts:648-743 | a run is orderly if and only if that holds all along it, also when the handlers between their two writes go on to register |
| WhatsAppAgreement.StoppedRelinkDisagrees | src/whatsapp/whatsapp.service.ts:648-672 | a run in which a relink stops between its two writes: the session names the new user, the registry the old one |
| WhatsAppAgreement.StoppedRelinkLasts | src/whatsapp/whatsapp.service.ts:648-672 | after it they disagree until someone registers the phone again |
| WhatsAppAgreement.StaleMessageDisagrees | src/whatsapp/whatsapp.service.ts:552-743 | a run in which a message handler that read the registry before a relink writes the session after it, and all handlers finish |
| WhatsAppAgreement.OverlappingLinksDisagree | src/whatsapp/whatsapp.service.ts:608-685 | a run of two overlapping link handlers after which session and registry name different users |
| EtlTransform.StatusClosed | src/etl/services/etl-transformer.service.ts:434-438 | the normalised status is one of five and its own normal form, except exactly for keys naming an inherited member |
| EtlTransform.StatusMeans | src/etl/services/etl-transformer.service.ts:33-51 | which keys mean sent, paid, overdue and void, word by word; every other text means draft |
| EtlTransform.KeyOfWords | src/etl/services/etl-transformer.service.ts:436 | the key of lower-case words is the words joined by underscores |
| EtlTransform.KeyIgnoresCase | src/etl/services/etl-transformer.service.ts:436 | the key does not depend on the case of letters |
| EtlTransform.LowerExactly | src/etl/services/etl-transformer.service.ts:436 | the lower-case form replaces each of the letters A to Z by its own small letter and leaves the rest |
| EtlTransform.StatusCanEscape | src/etl/services/etl-transformer.service.ts:437 | such a status text exists |
| EtlTransform.Resolve | src/etl/services/etl-transformer.service.ts:349-355 | the alias loop returns the first alias whose text is not blank, or nothing when all are |
| EtlTransform.Validate | src/etl/services/etl-transformer.service.ts:440-449 | no errors exactly for present id and customer and an amount in range |
| EtlTransform.MessagesAre | src/etl/services/etl-transformer.service.ts:440-449 | the messages are exactly those of the failing checks under the number of the row |
| EtlTransform.OutcomeMeans | src/etl/services/etl-transformer.service.ts:115-153 | a row is synced exactly when its fields pass and both texts can be encrypted; a rejected row is kept verbatim as a pending invoice record with its errors, the message of the cipher among them when it throws |
| EtlTransform.SyncedFields | src/etl/services/etl-transformer.service.ts:128-147 | the synced invoice field by field: trimmed id, both encrypted texts, the parsed amount, status, currency, both dates and source |
| EtlTransform.AliasesInOrder | src/etl/services/etl-transformer.service.ts:116-125 | each field takes the first alias the row has, in the listed order, and number, currency and status have their defaults |
| EtlTransform.ForEach | src/etl/services/etl-transformer.service.ts:112-156 | pushing row by row yields the synced and the rejected outcomes in order |
| EtlTransform.TransformInvoices | src/etl/services/etl-transformer.service.ts:111-156 | the same for the invoice callback |
| EtlTransform.TransformPartitions | src/etl/services/etl-transformer.service.ts:111-156 | total = synced + quarantined, and each row is found at its rank among its own kind, rejected ones verbatim |
| BulkUpsert.HelpersAreValid | src/etl/services/etl.service.ts:196-419 | every helper strides by its column count, and no upsert replaces its key |
| BulkUpsert.PlaceholdersConsecutive | src/etl/services/etl.service.ts:209-214 | the placeholders are 1..rows*columns, each exactly once |
| BulkUpsert.BindsItsCell | src/etl/services/etl.service.ts:197-214 | parameter r*w+c holds column c of row r, and its placeholder names it |
| BulkUpsert.TuplesAreTheRows | src/etl/services/etl.service.ts:216-228 | the server reads back exactly the rows |
| BulkUpsert.BuildUpsertBinds | src/common/database/query-helper.ts:16-41 | buildUpsert sends every object's values of the first object's columns and nothing else |
| BulkUpsert.OtherStrideBreaksNumbering | src/etl/services/etl.service.ts:371-379 | any other stride breaks the numbering at the second row |
| BulkUpsert.BulkIsFold | src/etl/services/etl.service.ts:216-228 | the statement succeeds exactly when its parameters can be counted in 16 bits, every row is storable and no two share a key, and then equals upserting row by row |
| BulkUpsert.KeptColumns | src/etl/services/etl.service.ts:196-345 | the columns a conflict keeps: id, invoice number and encryption flag of an invoice, the key alone of a contact, product or employee |
| BulkUpsert.ConflictReplaces | src/etl/services/etl.service.ts:216-228 | after an executed statement a key that was new holds the row; one that was there holds the new value in every replaced column and the old one in every kept column |
| BulkUpsert.UntouchedKeys | src/etl/services/etl.service.ts:216-228 | keys no row names stay as they were |
| BulkUpsert.BulkIdempotent | src/etl/services/etl.service.ts:216-228 | executing the same statement twice equals once |
| EtlService.CommitsExactly | src/etl/services/etl.service.ts:140-175 | a batch can commit exactly when no two accepted rows have the same trimmed external id, every accepted row has dates in the range of a timestamp, no inherited status and a short currency, no text holds the character of code zero, and ten parameters per accepted and five per rejected row stay within 65,535 |
| EtlService.GoodRowsCommitExactly | src/etl/services/etl.service.ts:196-229 | of batches of faultless rows exactly those of up to 6,553 rows can commit |
| EtlService.TimestampRange | src/database/migrations/tenant/1705000000000-InitialTenantSchema.ts:35-36 | the range of the date columns in the calendar of the model |
| EtlService.CellsFollowColumns | src/etl/services/etl.service.ts:197-217 | the ten parameters of an invoice stand in the order of the statement's column list |
| EtlService.EtlService.UpsertInvoices | src/etl/services/etl.service.ts:196-229 | the built statement is run as a whole exactly when its parameters can be counted, ids are distinct and all cells fit the columns, else refused as a whole; for a stored id amount, status, customer name, currency, dates and metadata become the new ones, while number and encryption flag stay; other ids keep their rows |
| EtlService.InvoicesStored | src/etl/services/etl.service.ts:196-229 | the same of the fold over the invoices |
| EtlService.AppendedIdsFresh | src/etl/services/etl.service.ts:400-419 | the records are appended under new identities that keep the ids of the table unique and below the next one |
| EtlService.EtlService.ExecuteBatch | src/etl/services/etl.service.ts:140-175 | a batch commits exactly when the server does not fail and accepts both statements, with the counts of its result, and is undone otherwise |
| EtlService.EtlService.ExecuteBatchWithRetry | src/etl/services/etl.service.ts:123-138 | with retries a batch is applied exactly once, by the first of three attempts that commits, or not at all |
| EtlService.FirstGoodExactly | src/etl/services/etl.service.ts:123-138 | the attempt that counts is the first of attempts 1 to 3 that commits |
| EtlService.RefusedBatchNeverCommits | src/etl/services/etl.service.ts:123-138 | a repeated id, a value its column does not take or too many rows, if so at each attempt, fail all three: nothing is synced and nothing quarantined |
| EtlService.InvalidDateFailsBatch | src/etl/services/etl-transformer.service.ts:143-144 | the transformer accepts a row whose invoice date is no date, or before the first timestamp, and its batch fails at every attempt |
| EtlService.InheritedStatusFailsBatch | src/database/migrations/tenant/1705000000000-InitialTenantSchema.ts:27-46 | so does the batch of a row whose status names an inherited member, because of the check on the column |
| EtlService.LargeBatchNeverCommits | src/connectors/connectors.controller.ts:38 | a batch of 6,554 accepted rows or more fails at every attempt, although up to 10,000 are let in |
| QuarantineService.GroupsPartition | src/etl/services/quarantine.service.ts:57-64 | every record is in the group of exactly one source |
| QuarantineService.PickedInOrder | src/etl/services/quarantine.service.ts:52-54 | the records of given ids and those left over are taken in order, part by part |
| QuarantineService.PickedOne | src/etl/services/quarantine.service.ts:52-54 | a record is read, and deleted, exactly when its id is among the given |
| QuarantineService.GroupInOrder | src/etl/services/quarantine.service.ts:57-64 | so are the records of one source |
| QuarantineService.GroupOfOne | src/etl/services/quarantine.service.ts:57-64 | a record is in the group of its own source only |
| QuarantineService.SourcesInOrder | src/etl/services/quarantine.service.ts:57-64 | the groups come in the order of their first records |
| QuarantineService.GroupDeletedExactly | src/etl/services/quarantine.service.ts:69-86 | a group's records are deleted exactly when every row is accepted; otherwise all stay and each rejected row adds one record |
| QuarantineService.QuarantineService.RetryRecord | src/etl/services/quarantine.service.ts:24-47 | unless the ETL run fails the old record is deleted, whether the row was synced or quarantined anew |
| QuarantineService.QuarantineService.RetryQuarantineRecord | src/etl/services/etl.service.ts:100-119 | the old record is deleted exactly when nothing was quarantined |
| QuarantineService.QuarantineService.RetryGroups | src/etl/services/quarantine.service.ts:66-86 | the loop applies the groups in order, adds up what was synced, and stops at the first failed ETL run |
| QuarantineService.QuarantineService.RetryBatch | src/etl/services/quarantine.service.ts:52-89 | the same with the records read and counted |
| QuarantineLineage.CommitTracks | src/etl/services/quarantine.service.ts:69-85 | when a commit dooms the record that tracked a row, the batch itself tracks the row |
| QuarantineLineage.StepPreserves | src/etl/services/quarantine.service.ts:24-89 | ingest, read, commit and delete steps of any job keep every ingested row tracked |
| QuarantineLineage.StepKeepsTexts | src/etl/services/quarantine.service.ts:24-89 | each step keeps every record's text among those submitted for the row it descends from |
| QuarantineLineage.NoRowIsLost | src/etl/services/etl.service.ts:100-175 | over every interleaving and any stop, every ingested row is in the invoice table or has a record no retry is about to delete, and every record holds verbatim a text submitted for its row |
| QuarantineLineage.RetryIsCommitThenDelete | src/etl/services/quarantine.service.ts:30-47 | an uninterrupted retry of one group is a commit step and a delete step, whose store is the batch and then the delete its policy allows |
| QuarantineLineage.RunGroupIsTwoSteps | src/etl/services/quarantine.service.ts:66-86 | a round of the batch retry, its ETL run included, is these two steps |
| QuarantineLineage.SingleRetryIsTwoSteps | src/etl/services/quarantine.service.ts:24-47 | so is each single retry |
| PaymentAnomalies.SortAscends | src/anomaly/anomaly.detector.ts:31 | sorting is the ascending arrangement of the values |
| PaymentAnomalies.AscendingUnique | src/anomaly/anomaly.detector.ts:31 | that arrangement is unique |
| PaymentAnomalies.FencesOrdered | src/anomaly/anomaly.detector.ts:30-36 | lower <= q1 <= q3 <= upper |
| PaymentAnomalies.FewOutside | src/anomaly/anomaly.detector.ts:30-36 | fewer than a quarter lie above the upper fence, at most a quarter below the lower |
| PaymentAnomalies.FlaggedExactly | src/anomaly/anomaly.detector.ts:95-133 | over any ascending arrangement of amounts and hours with q1 at n/4 and q3 at 3n/4: with ten payments or more exactly those with amount - q3 > 1.5(q3 - q1), or an hour more than 1.5(q3 - q1) below q1 or above q3, are flagged, and the score tells the reasons |
| PaymentAnomalies.FewFlagged | src/anomaly/anomaly.detector.ts:95-133 | at most ceil(n/4)-1 exceed the amount ceiling and at most 3*floor(n/4) are flagged |
| PaymentAnomalies.DetectionIgnoresOrder | src/anomaly/anomaly.detector.ts:95-133 | the flagged payments do not depend on input order |
| SpikeAnomalies.GroupByVendor | src/anomaly/anomaly.detector.ts:43-48 | the map's keys are the vendors in first-appearance order, its values their own subsequences |
| SpikeAnomalies.DetectExpenseSpikes | src/anomaly/anomaly.detector.ts:38-79 | the result on interleaved vendors is each vendor's own result in that order |
| SpikeAnomalies.ZTestSquared | src/anomaly/anomaly.detector.ts:16-28 | the score test equals the squared test without a root |
| SpikeAnomalies.FlaggedExactly | src/anomaly/anomaly.detector.ts:51-63 | a vendor is flagged exactly with three months and a last one that exceeds the mean of the earlier ones by more than the threshold times the root of their variance, mean and variance being given by their defining equations |
| SpikeAnomalies.StatisticsAre | src/anomaly/anomaly.detector.ts:16-24 | the loops of mean and deviation compute these two, and nothing else satisfies the equations |
| SpikeAnomalies.SumsAdd | src/anomaly/anomaly.detector.ts:16-24 | both sums add up over parts |
| SpikeAnomalies.SumsOfOne | src/anomaly/anomaly.detector.ts:16-24 | over one value they are the value and its squared distance |
| SpikeAnomalies.AlertSays | src/anomaly/anomaly.detector.ts:64-77 | what the alert says: vendor and last name, months, the percentage rounded to the nearest, the score capped at five deviations, the confidence by months |
| SpikeAnomalies.ConstantHistoryNeverFlagged | src/anomaly/anomaly.detector.ts:26-28 | a history that never varied is never flagged |
| SpikeAnomalies.ScoresInRange | src/anomaly/anomaly.detector.ts:71-72 | with a positive threshold all scores and confidences lie in (0, 1] |
| SpikeAnomalies.ScalingKeepsAlerts | src/anomaly/anomaly.detector.ts:38-79 | scaling all spends by a positive factor changes no alert |
| AuditChain.VerifyChainIntegrity | src/common/audit/audit-log.service.ts:105-141 | valid exactly when every link and recomputed hash agrees, else the first bad index |
| AuditChain.FirstLink | src/common/audit/audit-log.service.ts:111-118 | the first entry of a valid log links to 64 zeros |
| AuditChain.ContentIs | src/common/audit/audit-log.service.ts:227-242 | the order of the ten fields in the hashed text and the separators between them |
| AuditChain.ContentFixesLink | src/common/audit/audit-log.service.ts:227-242 | equal hashed texts have equal previous hashes and times whatever the other fields hold |
| AuditChain.FinalHashFixesLog | src/common/audit/audit-log.service.ts:105-141 | two valid logs with one final hash agree on length and hashed content entry by entry |
| AuditChain.FinalHashFixesFields | src/common/audit/audit-log.service.ts:227-242 | they are the same log when the fields before the metadata hold no separator |
| AuditChain.DeterminedExactly | src/common/audit/audit-log.service.ts:227-242 | among the rows the table can hold, the hashed text of a row determines its fields if and only if its pieces between separators can be read in one way only |
| AuditChain.UuidExactly | src/database/migrations/system/1705000000007-CreateAuditLogs.ts:9-20 | the texts a UUID column gives: five groups of hexadecimal digits of lengths 8, 4, 4, 4 and 12 |
| AuditChain.PlainRowIsDetermined | src/common/audit/audit-log.service.ts:227-242 | a row is determined when action, type and agent hold no separator, whatever the metadata holds |
| AuditChain.MetadataFixed | src/common/audit/audit-log.service.ts:236-239 | a separator inside the JSON text of the metadata cannot be taken for the one before it |
| AuditChain.EscapesLex | src/common/audit/audit-log.service.ts:236 | an escaped character does not end a JSON string |
| AuditChain.FinalHashFixesReadable | src/common/audit/audit-log.service.ts:105-141 | two valid logs with one final hash are the same log when the rows of one are determined |
| AuditChain.SameTextVerifies | src/common/audit/audit-log.service.ts:113-138 | a valid log stays valid when a row is replaced by one of the same hashed text |
| AuditChain.SeparatorHidesFields | src/database/migrations/system/1705000000007-CreateAuditLogs.ts:9-20 | two different rows the table can hold, resource ids and addresses well-formed, with one hashed text |
| AuditChain.TamperedRowIsFirstBroken | src/common/audit/audit-log.service.ts:113-138 | rewriting one row of a valid log is reported at that row |
| CsvExport.WriteReadRoundTrip | src/chat/response-formatter.service.ts:237-255 | reading by the rules of RFC 4180 section 2, the optional last line break included, gives back headers and cells exactly when no cell holds an unquoted line break and the last record is not a single empty cell |
| CsvExport.ExportReadsBack | src/chat/response-formatter.service.ts:237-263 | the same for the first non-empty query result, each cell under the header of its column |
| CsvImport.ParseRecovers | src/connectors/connectors.controller.ts:271-290 | parseCsv recovers every record of a table of plain cells |
| CsvImport.EitherBreakEndsALine | src/connectors/connectors.controller.ts:272 | both line breaks end a line; a carriage return alone does not |
| CsvImport.NonBlankInOrder | src/connectors/connectors.controller.ts:272 | blank lines are dropped wherever they stand, the others keep their order |
| CsvImport.NonBlankOne | src/connectors/connectors.controller.ts:272 | a line is kept exactly when trimming leaves something |
| CsvImport.RecordValue | src/connectors/connectors.controller.ts:280-289 | each header gets the trimmed value at its place, or the empty text when the line is short |
| CsvImport.ParseFailsExactly | src/connectors/connectors.controller.ts:272-275 | an upload is refused exactly with fewer than two lines that are not blank; else it gives one record per line after the first |
| CsvImport.ExportThenImport | src/connectors/connectors.controller.ts:271-290 | it recovers the whole table the writer prints for such cells |
| CsvImport.TableImportedExactly | src/connectors/connectors.controller.ts:271-290 | the printed table is read back row by row exactly when every cell is free of commas, quotes, line breaks and edge blanks and no row is a single empty cell |
| TenantMigrations.NamesDistinct | src/database/tenant-migration-runner.service.ts:139-153 | distinct files of one suffix have distinct migration names |
| TenantMigrations.SchemaNameExactly | src/database/tenant-migration-runner.service.ts:166-171 | exactly the public schema and the names tenant_a_b are run, a being of lower-case letters, digits and underscores, b of lower-case letters and digits, neither empty |
| TenantMigrations.TenantMigrationRunnerService.ExecuteFile | src/database/tenant-migration-runner.service.ts:74-126 | the statements of a file run in order on the connection, with errors before or after any of them, and the open transaction is rolled back after one |
| TenantMigrations.TenantMigrationRunnerService.RunFiles | src/database/tenant-migration-runner.service.ts:63-127 | the loop skips, executes and stops at the first failure as the run function says |
| TenantMigrations.TenantMigrationRunnerService.RunMigrations | src/database/tenant-migration-runner.service.ts:46-137 | the connection is always released, on the public path when the reset succeeds; only the named schema changes |
| TenantMigrations.TenantMigrationRunnerService.RunMigrationsForAllTenants | src/database/tenant-migration-runner.service.ts:17-35 | every schema gets its own run whatever became of the others, and the succeeded ones counted are those whose run did |
| TenantMigrations.FileKeepsRecorded | src/database/tenant-migration-runner.service.ts:74-126 | whatever a script does and wherever it fails, a file records its own name and no other, and surely does when it does not throw |
| MigrationSafety.AppliedIsRecorded | src/database/tenant-migration-runner.service.ts:66-126 | the schema holds exactly the changes of its recorded migrations at every stop point of every run, whatever statements fail, if and only if no script leaks |
| MigrationSafety.LeaksExactly | src/database/tenant-migration-runner.service.ts:92-113 | a script the query runner does not throw in leaks exactly when it changes something and ends the transaction |
| MigrationSafety.PlainFile | src/database/tenant-migration-runner.service.ts:74-126 | a file whose script leaves the transaction alone throws exactly when a statement fails, and leaves all of it exactly when its commit took effect, else nothing |
| MigrationSafety.PrefixGrows | src/database/tenant-migration-runner.service.ts:66-127 | a recorded prefix of the sorted files stays a prefix, up to the first failing file |
| MigrationSafety.FailedRunResumes | src/database/tenant-migration-runner.service.ts:66-127 | the run after a failed one resumes at the failing file, or behind it when its commit had been taken, and completes exactly when the rest applies |
| MigrationSafety.RunAfterSuccessIsIdle | src/database/tenant-migration-runner.service.ts:69-72 | a run after a success executes nothing and skips all, whatever the scripts |
| VersionLedger.StepKeepsLedger | src/chat/prompt-template.service.ts:154-210 | publish and rollback keep only the last two versions ever active; rollback is refused exactly with no inactive version |
| VersionLedger.RollbackIsInvolution | src/chat/prompt-template.service.ts:180-210 | with two versions or more rollback changes the active one and undoes itself |
| VersionLedger.RunKeepsLedger | src/chat/prompt-template.service.ts:154-210 | every run from no version or one keeps this, and only publishing adds versions |
| VersionLedger.RollbacksAlternate | src/chat/prompt-template.service.ts:180-210 | after a publish, an even number of rollbacks leaves the newest active, an odd number the one before |
| PromptVersions.PublishRefines | src/chat/prompt-template.service.ts:154-173 | publishing adds the next number as the only active version and touches no content |
| PromptVersions.RollbackRefines | src/chat/prompt-template.service.ts:180-210 | rolling back is the machine's rollback and touches no content |
| PromptVersions.RollbackTwiceRestores | src/chat/prompt-template.service.ts:180-210 | rolling back twice restores the whole table |
| PromptVersions.ActiveIsNewestOrBefore | src/chat/prompt-template.service.ts:59-65 | the active template is version n or n-1 and the only active one |
| PromptVersions.PromptTemplateService.Publish | src/chat/prompt-template.service.ts:154-173 | one transaction, or no change when it fails |
| PromptVersions.PromptTemplateService.RollBack | src/chat/prompt-template.service.ts:180-210 | activates the highest inactive version, or refuses and changes nothing |
| PromptVersions.PromptTemplateService.SeedCanonical | src/chat/prompt-template.service.ts:220-237 | publishes the canonical content, or answers with a template no table holds |
| PromptVersions.PromptTemplateService.GetActive | src/chat/prompt-template.service.ts:112-130 | the answer always includes every placeholder its name requires, and the table changes only to repair |
| PromptVersions.IncludesExactly | src/chat/prompt-template.service.ts:217 | a text includes a placeholder exactly when it is some text, the placeholder and some text |
| PromptVersions.MissingExactly | src/chat/prompt-template.service.ts:214-218 | one missing placeholder is enough |
| PromptVersions.RollbackToIncompleteIsUndone | src/chat/prompt-template.service.ts:112-130 | a rollback onto an incomplete template is replaced by the next read |
| PromptVersions.RunKeepsVersions | src/chat/prompt-template.service.ts:154-210 | every run keeps versions 1..n gap-free, at most one active, and published contents unchanged |
| ModelConfigs.ModelConfigService.SetActiveModel | src/chat/model-config.service.ts:134-153 | the new row is the only active one, and the others keep everything but the flag |
| ModelConfigs.ModelConfigService.RollBack | src/chat/model-config.service.ts:160-218 | activates the latest inactive row other than the current one, or refuses |
| ModelConfigs.SetActiveRefines | src/chat/model-config.service.ts:134-153 | setting a model is the machine's publish |
| ModelConfigs.RollbackRefines | src/chat/model-config.service.ts:160-218 | with at most one active row, rollback is the machine's rollback although it clears one row only |
| ModelConfigs.RunRefinesLedger | src/chat/model-config.service.ts:134-218 | every run refines the machine, so at most one model is ever active |
| Strings.SplitJoin | src/connectors/connectors.controller.ts:277-281 | splitting undoes joining when no part holds the separator |
| Strings.WordsJoin | src/reports/cron-helper.service.ts:86 | splitting on white space undoes joining plain words with blanks |
| Strings.WordsExactly | src/reports/cron-helper.service.ts:86 | any run of white space separates two words |
| Strings.TrimExactly | src/connectors/connectors.controller.ts:277-284 | trimming takes away the white space at both edges and nothing else |
| Strings.SpaceCodes | src/connectors/connectors.controller.ts:272-284 | white space by code, as in sections 12.2 and 12.3 of the ECMAScript specification |
| Strings.ToNumberDecimal | src/reports/cron-helper.service.ts:151 | printing a number and reading it back gives the number |
| Strings.ToNumberForms | src/reports/cron-helper.service.ts:151 | the texts read as numbers: none, digits, or a minus and digits |
| Strings.ToNumberSigned | src/reports/cron-helper.service.ts:151 | a minus negates and a leading zero changes nothing |

## Left out

- Strings.ToNumberDecimal: reads plain decimal digits with an optional minus; hexadecimal, exponent, fractional and blank-padded numerals of JavaScript are taken as NaN.
- CronHelper.NextRunAfter: a UTC process; the `timezone` argument is ignored as in the code, and local daylight saving in `setMinutes` is not modelled.
- CronIntervals.SimpleFiresAt: whole hours and days, since `clamp` does not round.
- ReportScheduler.ReportSchedulerService.ProcessSchedules: ticks do not overlap, the update of a row does not fail, and one clock reading serves search and update; report rendering and mail are left out.
- SchedulerRuns.DueScheduleIsRun: here and in `FairExactly` edits happen between ticks, and no row is reactivated with an old next run.
- SlidingWindow.ExpiryInvisible: the deadline is measured by the clock of the requests.
- UsageQuota.AdmissionsBounded: limits are fixed during a run, unlike in `RunKeepsAccount` and `RefusedExactly`; a period is one key, and the flag cache and the period's text are left out.
- WhatsAppLinking.LinkingIsSafe: tenants and their schemas are not deleted or renamed; message sending and the chat itself are left out.
- EtlTransform.TransformInvoices: rows with text values, as a CSV upload gives them; a date is what the parser parameter gives, and an infinite amount counts as NaN, both being refused.
- EtlTransform.TransformPartitions: invoices only; the five other transforms push onto the same two arrays with other field checks.
- EtlService.EtlService.ExecuteBatchWithRetry: a failed transaction leaves no trace; a commit whose acknowledgement is lost is not modelled.
- EtlService.CommitsExactly: texts are sequences of Unicode characters, so a lone surrogate is none; an external id too long for an entry of its unique index and texts beyond the server's size limits are not refused; dates are written by a UTC process.
- BulkUpsert.BulkIdempotent: the refreshed `updated_at` of employees is left out; expenses and bank transactions are plain inserts and not idempotent.
- QuarantineLineage.NoRowIsLost: invoices; a row counts as ingested when its batch commits, and a later upsert of the same external id may replace its cells.
- QuarantineService.QuarantineService.RetryBatch: the ids are a set, and the groups come in first-record order, not in the order of JavaScript keys that look like integers.
- PaymentAnomalies.FewFlagged: exact numbers instead of floating point, here and in the spike statistics, where the root is exact.
- AuditChain.VerifyChainIntegrity: metadata is its JSON text and rows come in order; that rows written by `log` verify is not claimed, since `log` hashes its own clock and raw address.
- CsvExport.WriteReadRoundTrip: the data URI encoding and the file name are left out.
- TenantMigrations.TenantMigrationRunnerService.RunMigrations: the number-aware sort of the directory listing is the order of the given files.
- MigrationSafety.AppliedIsRecorded: a migration ends the runner's transaction or leaves it alone; one that begins another, or nests one, is not modelled.
- PromptVersions.RunKeepsVersions: publishes of one name are serialised transactions; `render` is left out.
- Controllers, GraphQL, DTO validation, role guards, module wiring and configuration.
- Redaction, response validation, chart and document rendering, dashboards, report SQL, alert and SLA states, seat counts and token budgets.
