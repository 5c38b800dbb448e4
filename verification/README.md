# Corehole: a verified model

Corehole is a DNS server with an admin process beside it: it filters queries by
rules and subscribed blocklists, answers local names, keeps an audit log and
reloads CoreDNS when its settings change. This project models the parts whose
correctness spans many steps or several representations, and proves what they
promise. `dafny verify dfyconfig.toml` checks all of it.

**Background refresh jobs.** `RefreshProtocol` is a step machine of a submitter
inside its critical section, one worker, the table of job records and the
process itself (signal, cancel, crash, failed and successful recovery); every
save is an atomic step that may succeed or fail. `RefreshInvariants`,
`RefreshTheorems`, `RefreshBounds`, `RefreshRecovery`, `RefreshHistory` and
`RefreshRowHistory` hold what every run keeps, `RefreshShadows` what becomes of a
failure that could not be saved, `RefreshLostFailure` and `RefreshManyLost` the
runs that break a bound. `RefreshJobs` and `RefreshWorker` are the class and its
methods, from a new process to a worker that has come to rest, each proved to take
a path of the step machine.

**The summary cache.** `SummaryCacheProtocol` runs any number of callers through
the two locked sections, with a log of what happened. `Summaries` and
`SummaryCache` are the heap side: deep copies, projections, and a cache whose
arrays no caller can reach.

**Filtering.** `Text`, `Domains` and `DomainCharacters` give the normal forms,
`ListParser` and `ListRoundTrip` the list grammar, `BlocklistMatcher` the four-set
index against a scan of the entries, `BlocklistManager` the reloads. `FilterTables`
has the tables and joins, `FilterDecisions` the query-time decision, `RuleDecider`
the snapshot. `FilterPrecedence` says which row decides, `FilterFromTables` the same
of the tables without the joins, `FilterAgreement` when decision and snapshot agree,
`FilterDisagreement` a query at which they do not, `FilterActivation` the reload of
both. `FilterImport` and `FilterImportMeaning` carry a list text into the tables and
back without changing what it decides.

**Audit.** `AuditProtocol`, `AuditConservation` and `AuditSink` are the bounded
channel, the batching worker and the totals; `AuditCleanup` the batched delete;
`Stamps` and `StampOrder` the calendar, the time stamps of section 5.6 of RFC 3339
(`StampReading` reads them back) and when comparing them with a bucket boundary as text is comparing times,
`CutoffOrder` the same for the cutoff of a cleanup; `AuditBuckets` and
`AuditClientBuckets` the buckets filled by such comparisons.

**Smaller parts.** `LocalDns` and `LocalDnsChain` (CNAME chasing, section 4.3.2 of
RFC 1034), `DnssecMessages` and `DnssecUpstream` (section 3.2.1 of RFC 4035 and
section 5.8 of RFC 6840), `QueryPages`, `Migrations`, `Sessions`, `Corefile`,
`CorefileReading` and `ConfigUpdates`. `Options`, `Numbers` and `Thinning` are shared
helpers.

Some promises turn out to hold only under a condition. Each is proved as an
equivalence, so the condition is exact, and each has an input at which it fails:

- After a crash the restarted queue is the held job, the old queue and a saved
  admission, and no finished job runs again, if and only if every job whose failure
  was kept in memory alone since the process started has had its row evicted
  (`RefreshShadows.CrashAfterRun`).
- One job per list survives a crash if and only if no unfinished row of a job that
  memory holds as finished shares its list with another unfinished row, and the
  bound of 64 if and only if those rows and the owed work together are no more
  (`RefreshShadows.OnePerListExactly`, `RefreshShadows.SixtyFourExactly`).
  `RefreshLostFailure` and `RefreshManyLost` have runs that break both.
- The snapshot decision and the query-time decision agree in all states of plain
  tables if and only if both see the same name, or neither sees a name that a list
  may hold (`FilterAgreement.AgreementExactly`). At `_x.tracker.example` they differ
  (`FilterDisagreement.UnderscoreDisagrees`).
- Bucket boundaries order events by their time if and only if the interval is a
  whole number of seconds (`AuditBuckets.BucketsExactly`,
  `StampOrder.FractionalBoundaryFails`).
- A cleanup deletes the rows older than its cutoff, and no others, except within the
  cutoff's own second: there an event and the cutoff change places if and only if
  the fraction of one is the beginning of the fraction of the other
  (`CutoffOrder.CutoffOrderExactly`). Every cutoff has such an instant
  (`CutoffOrder.EveryCutoffMisorders`, `CutoffOrder.HalfSecondWitness`).
- Normalizing a pattern twice is normalizing it once if and only if the pattern,
  without one final dot and the space around it, does not end in a dot
  (`FilterImport.NormalPatternSettles`, `FilterImport.TwoDotsDoNotSettle`).
- A configuration update loses the agreement of running and stored settings if and
  only if it reloads a different Corefile and then fails to save, or saves one that
  it does not reload (`ConfigUpdates.StepSync`, `ConfigUpdates.PlainLosesSync`).

## Model

| member | source | states |
|---|---|---|
| RefreshTheorems.NoLostWork | internal/admin/filter_jobs.go:115-260 | in every reachable state of a live process the queue has no repeats, a job is unfinished in memory exactly if it is queued or held by the worker, and a parked worker with work has a wake token or one about to be sent |
| RefreshTheorems.InternalStepDecreases | internal/admin/filter_jobs.go:203-260 | without submissions every worker step, whatever fails, lowers a measure |
| RefreshTheorems.NeverStuck | internal/admin/filter_jobs.go:203-260 | while a job is unfinished and nobody is submitting, the worker has a step to take |
| RefreshTheorems.WorkDrains | internal/admin/filter_jobs.go:203-260 | the worker alone takes boundedly many steps, and when it has none left every job is finished |
| RefreshInvariants.StepKeepsInv | internal/admin/filter_jobs.go:52-260 | every step of submitter, worker and process, failing or not, keeps the invariant that ties memory, table, queue, worker and wake token |
| RefreshInvariants.RunKeepsInv | internal/admin/filter_jobs.go:52-260 | so does every run, across crashes and restarts |
| RefreshBounds.AdmissionBounds | internal/admin/filter_jobs.go:115-163 | over every run at most 256 records, and memory and table with the same ids while the mutex is free; at most 64 active jobs and one per list in runs that keep no failure in memory alone (across a crash exactly when: the two rows below) |
| RefreshShadows.OnePerListExactly | internal/admin/filter_jobs.go:55-98 | from a state within the bounds, a restart has one job per list exactly if no unfinished row that memory holds as finished shares its list with another unfinished row |
| RefreshShadows.SixtyFourExactly | internal/admin/filter_jobs.go:55-98 | a restart has as many active jobs as there is owed work and rows that memory holds as finished, so at most 64 exactly if these are at most 64 together |
| RefreshManyLost.LostFailuresBreakTheBounds | internal/admin/filter_jobs.go:252-259 | for every number up to the record limit a reachable restart with that many active jobs of one list, so with 65 the bound of 64 is broken |
| RefreshShadows.ShadowsAreLost | internal/admin/filter_jobs.go:252-259 | over any run, an unfinished row belongs to a job that memory holds as finished exactly if that job's failure was kept in memory alone since the last recovery |
| RefreshShadows.CrashAfterRun | internal/admin/filter_jobs.go:55-98 | after any run and a crash, the queue is the held job, the old queue and a saved admission, and no finished job runs again, each exactly if no such row is left |
| RefreshShadows.CrashAfterSavedRun | internal/admin/filter_jobs.go:55-98 | so both hold after every run in which no failure was kept in memory alone |
| RefreshBounds.StepKeepsBounded | internal/admin/filter_jobs.go:115-163 | inside a process no step breaks the bounds of 64 and one per list, even if saves fail |
| RefreshInvariants.VictimExists | internal/admin/filter_jobs.go:133-148 | at 256 records the bound of 64 leaves a finished one to evict |
| RefreshRecovery.CrashRecovery | internal/admin/filter_jobs.go:55-98 | after a crash at any step and any failed recoveries, the queue is the unfinished rows, and equals held job, old queue and saved admission exactly if memory holds no unfinished row as finished |
| RefreshRecovery.RestartRows | internal/admin/filter_jobs.go:75-82 | a restart makes of each row the one with the same id, list and creation time: an unfinished one queued, without an error, updated at the restart, a finished one as it is |
| RefreshRecovery.FinishedStaysFinished | internal/admin/filter_jobs.go:55-98 | a finished job stays finished across a crash exactly if memory holds no unfinished row as finished |
| RefreshRecovery.RecoveredInAdmissionOrder | internal/admin/filter_jobs.go:55-111 | over any run a restart queues jobs in the order of their submission, because the upsert keeps a row's place |
| RefreshHistory.SuccessAfterActivation | internal/admin/filter_jobs.go:222-248 | a record reads succeeded, in memory or table, only after its own refresh and then a reload returned without error in one process |
| RefreshHistory.PhasesInOrder | internal/admin/filter_jobs.go:203-260 | in a live process records move only queued, refreshing, reloading, complete, or to failed, or back to queued when the process is stopping, and finished ones never move |
| RefreshRowHistory.RowPhasesInOrder | internal/admin/filter_jobs.go:192-260 | the rows of the table move in the same way, and only by the worker's saves |
| RefreshHistory.RefreshesAreSerial | internal/admin/filter_jobs.go:222 | no two refresh calls overlap in any run |
| RefreshLostFailure.LostFailureBreaksOnePerList | internal/admin/filter_jobs.go:252-259 | a reachable state with two queued jobs of one list, after both saves of a failure failed |
| RefreshJobs.RefreshJobs.Load | internal/admin/filter_jobs.go:62-82 | the recovery loop builds the map, the queue and the list of records to save that the rows call for |
| RefreshJobs.RefreshJobs.SaveRecovered | internal/admin/filter_jobs.go:89-94 | the save loop rewrites the unfinished rows in place; a failed save leaves the rows before it reset and the others untouched |
| RefreshJobs.RefreshJobs.constructor | internal/admin/filter_jobs.go:52-99 | from what the two loops have made, the recovery step of the machine, and the invariant |
| RefreshWorker.NewRefreshJobs | internal/admin/filter_jobs.go:52-99 | load, save, construct and signal, as one run of the machine: a live process that has been signalled, or the table as a failed recovery leaves it |
| RefreshJobs.RefreshJobs.StartWorker | internal/admin/filter_jobs.go:96-97 | the first signal |
| RefreshJobs.RefreshJobs.TakeWake | internal/admin/filter_jobs.go:205-209 | the parked worker receives the token |
| RefreshJobs.RefreshJobs.CheckContext | internal/admin/filter_jobs.go:210 | on with the loop exactly if the process is not stopping |
| RefreshJobs.RefreshJobs.StopParked | internal/admin/filter_jobs.go:206-207 | a parked worker ends when the process is stopping |
| RefreshJobs.RefreshJobs.FindActive | internal/admin/filter_jobs.go:121-129 | finds a job of the list if one is active, else counts the active ones |
| RefreshJobs.RefreshJobs.FindVictim | internal/admin/filter_jobs.go:134-139 | picks an oldest finished record if there is one |
| RefreshJobs.RefreshJobs.MakeRoom | internal/admin/filter_jobs.go:133-148 | deletes the row, then the record; a failed delete changes nothing |
| RefreshJobs.RefreshJobs.Admit | internal/admin/filter_jobs.go:156-161 | saved, inserted and signalled, or nothing |
| RefreshJobs.RefreshJobs.Signal | internal/admin/filter_jobs.go:165-170 | the one wake token is there afterwards |
| RefreshJobs.RefreshJobs.Submit | internal/admin/filter_jobs.go:115-163 | every outcome of a submission with the whole new state: shutting down, the active job of the list, queue full, failures, or the admission |
| RefreshJobs.AcceptedMeans | internal/admin/filter_jobs.go:149-162 | an accepted job is new, saved, in memory, last in the queue, signalled, and no active record is touched |
| RefreshJobs.RefreshJobs.PopNext | internal/admin/filter_jobs.go:209-217 | takes the head of the queue, or parks |
| RefreshJobs.RefreshJobs.Update | internal/admin/filter_jobs.go:192-201 | a record is saved first and copied to memory only if that worked |
| RefreshJobs.RefreshJobs.Fail | internal/admin/filter_jobs.go:252-260 | a failure is saved, or kept in memory with the reason it could not be, which follows the failure's own text after "; job persistence: " |
| RefreshWorker.WakeUp | internal/admin/filter_jobs.go:203-250 | all the worker does between two parkings is a run of the machine, and unless the process is stopping it ends with an empty queue and every queued job finished: succeeded with the list its refresh returned, or failed with the text of what failed first |
| RefreshWorker.RunJob | internal/admin/filter_jobs.go:218-247 | one turn of the worker is a run of the machine that leaves the queue and the other records alone; the job succeeds exactly if its refresh, its reload and its saves all worked and the process is not stopping, with the list the refresh returned; a failed record has the error of the save, the refresh or the reload that failed first, and if even that could not be saved, the save's error behind it |
| RefreshWorker.RefreshAndReload | internal/admin/filter_jobs.go:222-230 | no failure is carried on exactly if refresh, save of the phase and reload worked |
| RefreshWorker.Conclude | internal/admin/filter_jobs.go:231-246 | requeued and stopped if the process is stopping, else succeeded with the refreshed list, or failed with the failure's text; list and creation time are the job's own |
| SummaryCacheProtocol.ServedValuesAreFresh | internal/audit/summary_cache.go:22-65 | in every interleaving a value served from the cache comes from a successful load that began after the last invalidation and was stored less than 15 seconds before |
| SummaryCacheProtocol.SingleFlight | internal/audit/summary_cache.go:33-46 | at most one caller is loading, and a waiting caller has a leader or a closed flight |
| SummaryCacheProtocol.FlightsCloseOnce | internal/audit/summary_cache.go:54-56 | each flight is closed exactly once, when its leader has finished |
| SummaryCacheProtocol.StepKeepsInv | internal/audit/summary_cache.go:22-65 | every locked section, load result, give-up and tick keeps the invariant behind these |
| SummaryCacheAnswers.LookFindsExactly | internal/audit/summary_cache.go:27-40 | what a look finds in every reachable state, told by the log alone: the value last stored if nothing was invalidated since and 15 seconds have not passed, and no load begins; else it joins the open load or begins one |
| SummaryCacheAnswers.StoredIsServed | internal/audit/summary_cache.go:28-31 | a value stored last and not invalidated since is served to every caller that looks within 15 seconds |
| SummaryCacheAnswers.FinishStoresExactly | internal/audit/summary_cache.go:48-55 | the end of a load stores its value, and makes it the one that is served, exactly if it succeeded and no invalidation came since it began |
| SummaryCache.SummaryCache.LookUp | internal/audit/summary_cache.go:27-46 | a hit hands out a fresh copy of the stored summary; a miss joins or starts a flight |
| SummaryCache.SummaryCache.Complete | internal/audit/summary_cache.go:48-57 | a successful load of the current generation is stored as a copy for 15 seconds; the caller keeps its own arrays; errors are never stored |
| SummaryCache.SummaryCache.Invalidate | internal/audit/summary_cache.go:60-65 | a new generation and nothing stored |
| SummaryCache.SummaryCache.CallerWrites | internal/audit/summary_cache.go:31 | a write to any list of totals a caller holds leaves the cache as it is |
| SummaryCache.SummaryCache.CallerWritesBucket | internal/audit/summary_cache.go:31 | so does a write to its time buckets |
| SummaryCache.SummaryCache.CallerWritesClients | internal/audit/summary_cache.go:31 | and to its client buckets |
| Summaries.ProjectSummary | internal/audit/analytics.go:638-662 | a projection has the projected contents in arrays of its own |
| Summaries.CloneClientBuckets | internal/audit/analytics.go:652-655 | the outer array and the client array of every bucket are new, the contents the same |
| Summaries.ProjectHides | internal/audit/analytics.go:638-662 | a projected summary names no client, at the higher level no domain, and keeps every total |
| Summaries.ProjectExactly | internal/audit/analytics.go:638-662 | each list that a level hides becomes one entry without a name and with the sum of the counts, or stays empty; every other figure is untouched |
| Summaries.SumAddsUp | internal/audit/analytics.go:638-662 | the sum that stands in for hidden names adds up over the entries |
| Summaries.ProjectTwice | internal/audit/analytics.go:638-662 | projecting twice is projecting once at the stricter level, and the full level changes nothing |
| Domains.ValidIsNormal | internal/blocklist/parser.go:104-115 | a valid domain is its own normal form |
| Domains.NormalNameMeans | internal/blocklist/parser.go:104-115 | a text has a domain for its normal form exactly if, trimmed and in lower case, it is that domain with nothing but dots after it |
| DomainCharacters.ValidByCharacters | internal/blocklist/parser.go:154-184 | the label-by-label check accepts exactly the texts of at most 253 letters, digits, hyphens and dots with no dot or hyphen at an end or next to a dot, and a dot among any 64 characters in a row |
| DomainCharacters.ListDomainMeans | internal/blocklist/parser.go:129-152 | a blocklist may hold exactly these, addresses and thirteen names of the local host left out |
| Domains.StoredFormIsFixed | internal/blocklist/matcher.go:88-106 | the index keeps only list domains, and reading a kept form again gives the same |
| Domains.StoredFormMeans | internal/blocklist/matcher.go:88-106 | an entry is kept exactly if its normal form is a list domain, with `*.` before it or not for a suffix entry |
| Text.UnderIsByLabel | internal/blocklist/matcher.go:70-86 | a suffix entry covers a name exactly if its labels are the last labels of the name |
| ListParser.Parse | internal/blocklist/parser.go:17-30 | the loop gives the entries of all lines, or nothing when the reading stops early |
| ListParser.ParseLine | internal/blocklist/parser.go:32-78 | the entries of a line by the grammar: no cosmetic filter, comment cut, hosts address skipped, else a single field |
| ListParser.FieldGrammar | internal/blocklist/parser.go:80-102 | a field is an entry exactly if its normal form is a list domain, alone, behind `*.` or between double bar and caret |
| ListParser.LineGrammar | internal/blocklist/parser.go:32-78 | a line yields an entry exactly if it has none of the five marks of browser filters and the entry is written in a word after its address, or in its only word, any comment cut off |
| ListParser.TextGrammar | internal/blocklist/parser.go:17-30 | a text yields exactly what its lines yield |
| Text.FieldsAre | internal/blocklist/parser.go:54 | the words of a line, with the space between them, make up the line |
| ListRoundTrip.ParsedAreImportable | internal/blocklist/parser.go:65-77 | every parsed entry is a deny entry of a list domain that the index takes as it stands |
| ListRoundTrip.PrintThenParse | internal/blocklist/parser.go:32-102 | any list of importable entries, written one a line, parses back exactly, in order and with repeats |
| ListRoundTrip.HostsLineParses | internal/blocklist/parser.go:54-77 | a hosts line, with any address that has no space and no comment mark, with a zone or without, and any number of domains, parses to an exact entry for each |
| BlocklistMatcher.MemoryMatcher.constructor | internal/blocklist/matcher.go:21-51 | the four sets hold the accepted domains of the entries, by kind and list side |
| BlocklistMatcher.MemoryMatcher.Matches | internal/blocklist/matcher.go:70-86 | true exactly if the name is an exact entry or lies under a suffix entry |
| BlocklistMatcher.MemoryMatcher.Decide | internal/blocklist/matcher.go:53-68 | the index answers every query as a scan of the entries: invalid name, allow match before deny match, no match |
| BlocklistMatcher.ScanMeans | internal/blocklist/matcher.go:53-68 | over entries of list domains the scan allows a name that is an exact allow domain, or a suffix one or ends in a dot and one; else denies by the same test; else finds nothing |
| BlocklistMatcher.ScanIgnoresOrderAndRepeats | internal/blocklist/matcher.go:32-49 | order and repeats of entries change no answer |
| BlocklistMatcher.SameFormsSameScan | internal/blocklist/matcher.go:32-49 | entries with the same accepted forms answer alike |
| BlocklistMatcher.BundledOnlyBlocks | internal/blocklist/matcher.go:22-24 | bundled deny entries can only add blocks, and only where no entry decided |
| BlocklistManager.Manager.constructor | internal/blocklist/manager.go:60-79 | a new manager answers from the bundled entries alone |
| BlocklistManager.Manager.Reload | internal/blocklist/manager.go:85-98 | a failed reload keeps the matcher and the count, a successful one replaces both, the bundled entries counted; the status says which |
| BlocklistManager.Manager.Decide | internal/blocklist/manager.go:81-83 | after any reloads queries are answered as by a scan of the last load that went through |
| BlocklistManager.Manager.LoadEntries | internal/blocklist/manager.go:109-141 | files then sources joined in order, or nothing if any of them fails or the caller gives up |
| BlocklistManager.LoadedMeans | internal/blocklist/manager.go:109-141 | a load goes through exactly if every file is opened, read to its end and closed, every source answers and the caller waits; it is then the entries of the files and of the sources in order |
| BlocklistManager.FailuresChangeNothing | internal/blocklist/manager.go:89-93 | failed reloads, however many, leave the last good load in force |
| BlocklistManager.SuccessReplacesAll | internal/blocklist/manager.go:95-97 | a successful reload replaces all there was, whatever fails after it |
| FilterTables.BlocklistHas | internal/filter/repository.go:266-302 | the blocklist gets exactly the enabled plain entries of enabled lists |
| FilterTables.DecisionEntriesHas | internal/filter/repository.go:723-754 | without list groups the decision reads every entry, switched off with its list |
| FilterDecisions.FirstMatchingRule | internal/filter/service.go:378-400 | the first applicable rule in join order; the set of seen ids never matters |
| FilterDecisions.FirstMatchingEntry | internal/filter/service.go:402-425 | the first applicable list entry; the set of seen ids never matters |
| FilterDecisions.ServiceDecide | internal/filter/service.go:323-376 | the eight stages in order, and the errors for an empty domain and a bad address |
| FilterPrecedence.DecisionIsTheWinners | internal/filter/service.go:350-375 | the query-time decision is by a row exactly if that row applies at its stage (allow exact, allow regex, allow suffix, deny exact, allow list, deny list, deny regex, deny suffix), none applies at an earlier one and no earlier row at its own; undecided exactly if none applies; with the action, reason and ids of that row |
| FilterPrecedence.OneWinner | internal/filter/service.go:350-375 | at most one row decides |
| FilterFromTables.DecidedInTables | internal/filter/service.go:323-376 | in terms of the tables alone: the decision is by the rule with the least id, or the entry of the list with the least id and then with the least own, among those that are on, match and are meant for the client, at the first stage that has any |
| FilterFromTables.DecisionRulesHas | internal/filter/repository.go:692-721 | the join has every rule once for each of its groups, or for everybody if it has none, and nothing else |
| FilterFromTables.DecisionEntriesHasAll | internal/filter/repository.go:723-754 | the join has every entry with the kind, the switch and the groups of its list, and nothing else |
| FilterFromTables.ClientGroupsHas | internal/filter/repository.go:666-690 | the groups of a client are the enabled ones that an enabled client with its address is in |
| RuleDecider.RuleDecider.Reload | internal/filter/runtime.go:29-63 | succeeds exactly if all reads and compilations do, then mirrors the tables; otherwise the old snapshot stays |
| RuleDecider.RuleDecider.ReadClients | internal/filter/runtime.go:41-51 | the groups of every enabled client, or a failure at the read that failed |
| RuleDecider.RuleDecider.CompileRules | internal/filter/runtime.go:52-60 | every enabled regex rule compiled, or a failure if one does not compile |
| RuleDecider.RuleDecider.MatchRules | internal/filter/runtime.go:72-92 | first match in the snapshot; a compiled pattern is there whenever a rule needs one |
| RuleDecider.RuleDecider.Decide | internal/filter/runtime.go:65-118 | strong rules, then the blocklist, then weak rules, then the blocklist's own answer; without a snapshot the blocklist alone |
| FilterPrecedence.RulingIsTheWinners | internal/filter/runtime.go:65-118 | the ruling from a snapshot is by a rule under the same precedence, with a match of the blocklist between the exact deny rules and the other deny rules; else the blocklist's own answer, which blocks exactly on a deny match |
| FilterAgreement.AgreementExactly | internal/filter/runtime.go:65-118 | for every query that names something: block and rule id agree with the query-time decision in all plain tables, for all clients, if and only if both see the same name or none that a list may hold |
| FilterDisagreement.UnderscoreDisagrees | internal/blocklist/matcher.go:56-59 | at `_x.tracker.example`, under a denied domain, the query-time decision denies and the snapshot allows an invalid name |
| FilterAgreement.ValidNamesAgree | internal/filter/types.go:141-143 | every valid domain, in any case, with or without one final dot, meets that condition |
| FilterAgreement.ListsReadAlike | internal/filter/service.go:362-367 | on list domains the query-time reading of entries finds what a scan of the blocklist finds |
| FilterAgreement.NamesDifferByDots | internal/filter/types.go:141-143 | the two normal forms of a name differ by dots at the end only |
| FilterActivation.Activate | internal/app/app.go:315-340 | after both reloads the decider answers from this state of the tables; a failure leaves the old rules, and the blocklist old or new |
| FilterActivation.DecideActive | internal/filter/runtime.go:65-118 | from then on the query path and the query-time decision have the same outcome |
| FilterImport.ImportListEntries | internal/filter/service.go:232-275 | validated entries without repeats in first-seen order, or an error when there are none |
| FilterImport.FilterStore.Validate | internal/filter/repository.go:198-203 | every entry in normal form for the list, or nothing if one is invalid |
| FilterImport.FilterStore.InsertRows | internal/filter/repository.go:221-228 | the insert loop, each new key once and with the next id |
| FilterImport.FilterStore.ReplaceListEntries | internal/filter/repository.go:194-243 | all or nothing: the list's rows replaced by the valid entries, or no change |
| FilterImport.ReplacedRows | internal/filter/repository.go:206-228 | the table afterwards: the rows of other lists as they were, in order, then one enabled row for each entry, in order, with the next ids |
| FilterImport.TouchedMeans | internal/filter/repository.go:230-264 | the list gets the time, if the refresh worked, and the error text or none; its other columns and all other lists stay |
| FilterImport.FilterStore.MarkListRefreshError | internal/filter/repository.go:245-264 | only the error text of the list changes |
| FilterImport.FilterStore.RefreshList | internal/filter/service.go:67-82 | only a successful refresh touches an entry; a failed import changes at most the list's error |
| FilterImport.ImportedHas | internal/filter/service.go:248-270 | the import keeps exactly the parsed entries as they stand, each once |
| FilterImport.ImportedInOrder | internal/filter/service.go:248-270 | in the order of the text, each at the first place it has there |
| FilterImport.ListDomainIsValidated | internal/filter/types.go:127-139 | a list domain is a fixed point of the pattern normal form |
| FilterImport.NormalPatternOf | internal/filter/types.go:127-139 | a pattern without space at its ends is stored without one final dot, in lower case unless it is a regular expression, which must compile |
| FilterImport.NormalPatternSettles | internal/filter/types.go:127-139 | normalizing a pattern twice changes nothing exactly if the pattern, without one final dot and the space around it, does not end in a dot |
| FilterImport.TwoDotsDoNotSettle | internal/filter/types.go:127-139 | `a..` becomes `a.`, and that becomes `a` |
| FilterImportMeaning.ImportKeepsMeaning | internal/filter/service.go:67-82 | after a refresh of any list, every name is decided as by the other lists together with the parsed text |
| FilterImportMeaning.OnlyListIsItsText | internal/filter/service.go:232-275 | with one enabled deny list, every name is decided as by the parser output itself |
| AuditConservation.AuditConservation | internal/audit/audit.go:191-391 | over every run: calls are dropped, on their way, in the channel, in the batch, inserted or in failed batches; acceptance order is kept; channel and batch stay bounded; per action the total is the number of rows present and of rows cleaned |
| AuditConservation.StepKeepsInv | internal/audit/audit.go:191-391 | every step keeps all of that |
| AuditConservation.TotalsGrow | internal/audit/audit.go:361-391 | over every run without a rebuild the total of an action grows by the number of events of that action in the batches that went through, whatever is deleted meanwhile |
| AuditConservation.RecordMeans | internal/audit/audit.go:191-198 | a call is counted, and dropped exactly if the sink is closed |
| AuditConservation.SendMeans | internal/audit/audit.go:200-204 | an event in hand finds a place in the channel exactly if there is one, and is dropped and counted otherwise |
| AuditConservation.ReceiveMeans | internal/audit/audit.go:263-267 | the oldest event goes to the batch, which is flushed when it is full and not before |
| AuditConservation.FlushMeans | internal/audit/audit.go:246-254 | a flush that works appends a row with the next id, the stamp, client and action of each event and counts it once; one that fails leaves no trace; the batch is empty either way |
| AuditConservation.RebuildMeans | internal/audit/analytics.go:450-470 | a rebuild leaves each total at the number of rows with that action |
| AuditSink.Sink.constructor | internal/audit/audit.go:168-189 | a new sink starts empty, with whatever the tables hold in balance |
| AuditSink.Sink.Record | internal/audit/audit.go:191-195 | a closed sink drops the event and counts it |
| AuditSink.Sink.Send | internal/audit/audit.go:200-204 | never blocks: into the channel or dropped |
| AuditSink.Sink.Receive | internal/audit/audit.go:263-267 | one event to the batch, flushed when full |
| AuditSink.Sink.FlushBatch | internal/audit/audit.go:246-254 | rows and totals in one transaction; the batch is empty either way |
| AuditSink.Sink.Sweep | internal/audit/audit.go:270-272 | a flush and then one delete statement |
| AuditSink.Sink.Drain | internal/audit/audit.go:273-285 | after close the channel is emptied in order, nothing is dropped, and all of it is flushed |
| AuditSink.InsertRows | internal/audit/audit.go:324-349 | one row for each event, in order, with the next ids |
| AuditSink.IncrementActionTotals | internal/audit/audit.go:361-391 | the upserts, in any order, count every event of the batch once |
| AuditSink.Sink.DeleteExpired | internal/audit/analytics.go:384-401 | one delete statement takes at most 5000 rows and leaves the totals alone; if it takes fewer, exactly the rows below the cutoff are gone |
| AuditSink.Sink.RebuildTotals | internal/audit/analytics.go:450-470 | the totals counted from the rows present |
| AuditCleanup.AuditTable.CleanupOlderThan | internal/audit/analytics.go:371-412 | the loop ends; unlimited, exactly the rows below the cutoff text are gone, which are those older than the cutoff but for the misordered instants of its own second; limited, one batch; on an error, as many batches as went through |
| AuditCleanup.OldestGoFirst | internal/audit/analytics.go:386-393 | only rows with a stamp below the cutoff go, and one that stays comes after every one that went, by stamp and then by id |
| AuditCleanup.DeleteMeans | internal/audit/analytics.go:405-407 | a batch that is not full leaves no expired row, and the others keep their order |
| AuditCleanup.UnexpiredIs | internal/audit/analytics.go:386-393 | the rows that stay in the end are exactly those whose stamp is not below the cutoff, in their order |
| AuditCleanup.DeleteTwice | internal/audit/analytics.go:384-411 | batches one after the other delete what one large batch would |
| StampOrder.TextOrderIsTimeOrder | internal/audit/analytics.go:23-25 | for a boundary at a whole second, comparing an event's text with the boundary's compares their times, through the year 9999 |
| StampOrder.OrdersExactly | internal/audit/analytics.go:23-25 | the comparison is right for all events exactly if the boundary is at a whole second |
| CutoffOrder.CutoffOrderExactly | internal/audit/analytics.go:382 | a stamp and a cutoff compare as text as they do in time, unless they lie in one second and the fraction of one begins the fraction of the other |
| CutoffOrder.CutoffTakes | internal/audit/analytics.go:386-391 | so a cutoff takes exactly the older instants, but for those misordered ones, where it takes the younger |
| CutoffOrder.EveryCutoffMisorders | internal/audit/analytics.go:382 | every cutoff, whole second or not, has an instant it misorders |
| CutoffOrder.HalfSecondWitness | internal/audit/analytics.go:382 | half past the fifth second is below the fifth second as a cutoff |
| AuditCleanup.YoungerRowGoes | internal/audit/analytics.go:386-391 | so a row of that instant is deleted although it is younger |
| StampOrder.SecondOrder | internal/audit/audit.go:331 | later seconds have later text of the same length |
| StampReading.StampReads | internal/audit/audit.go:331 | a stored stamp and a bucket boundary, read by their digits and the rule of the Gregorian calendar, say the instant they were written for, to the nanosecond |
| AuditBuckets.TimeBuckets | internal/audit/analytics.go:771-820 | contiguous buckets up to the one with now; for whole-second intervals each has the number of events of its own time, of those allowed and of those blocked, and the sums over all buckets are those of the window |
| AuditBuckets.NowInLastBucket | internal/audit/analytics.go:772-773 | now lies in the last bucket and the window is count times interval long |
| AuditBuckets.BucketsExactly | internal/audit/analytics.go:772-794 | all boundaries order all events by time exactly if the interval is whole seconds |
| AuditBuckets.InExactlyOneBucket | internal/audit/analytics.go:788-795 | an event is selected by exactly one bucket if it lies in the window, else by none |
| AuditBuckets.TotalsAddUp | internal/audit/analytics.go:804-815 | the totals add up to the events in the window |
| AuditBuckets.PartsWithinTotal | internal/audit/analytics.go:792-793 | allowed and blocked together never exceed the total |
| AuditBuckets.NormalizedSettles | internal/audit/analytics.go:664-690 | no names, buckets or interval asked for is ten, twenty-four and an hour, more than a hundred or 168 is that many, and normalizing again changes nothing |
| AuditClientBuckets.ClientTimeBuckets | internal/audit/analytics.go:822-920 | each bucket lists exactly the busiest clients with events in its time, in their order, with the number of their events, for whole-second intervals; its start, end and total are those of the time bucket |
| AuditClientBuckets.ClientIndexes | internal/audit/analytics.go:842-847 | each name leads to its last place, and an empty name to none |
| AuditClientBuckets.ClientsWithinTotal | internal/audit/analytics.go:906-918 | the counts of all listed clients together never exceed the bucket total |
| LocalDns.IndexRecords | internal/localdns/resolver.go:172-182 | the index gives each name exactly the enabled records a scan would, in order |
| LocalDns.AnswerName | internal/localdns/resolver.go:65-96 | the chain of CNAME records and then the matching records; true exactly if something was appended |
| LocalDns.AddMatchingAnswers | internal/localdns/resolver.go:98-112 | exactly the matching records, in order, and whether there was one |
| LocalDns.Resolve | internal/localdns/resolver.go:30-63 | other classes, bad names and empty answers are not handled; a failing source is an error |
| LocalDns.NormalOwnerSettles | internal/localdns/record.go:119-126 | a normalized name is settled and is its own index key |
| LocalDns.OwnerInAnyCase | internal/localdns/record.go:119-126 | a valid name is read from itself in any case, with one final dot or none |
| LocalDnsChain.ChainTheorem | internal/localdns/resolver.go:65-96 | at most eight CNAME records, each the first enabled one of the table at the target before, no owner twice, written with the owner, class, time to live and target of the record; then nothing if there are eight, else exactly the matching records of the name the chain ends at, of the type asked for; it ends early only at a name that answers, has no CNAME or was passed before, or if the question is not for an address |
| LocalDnsChain.DirectAnswersMatch | internal/localdns/resolver.go:98-112 | the direct answers of a name are those of its enabled records of the type asked for, all of them, in table order, each with the name as owner, the record's own type and time to live, the class of the question, and its value as an address or a name |
| DnssecUpstream.StripRRSet | internal/coredns/dnssec_upstream.go:115-127 | in-place compaction keeps exactly the records that are no proof, in order, and never overwrites an unread place |
| DnssecUpstream.Message.ClearDo | internal/coredns/dnssec_upstream.go:154-158 | the DO bit of the OPT record is cleared and nothing else changes |
| DnssecUpstream.CopySection | internal/coredns/dnssec_upstream.go:65 | a copied section has records of its own, none of them twice |
| DnssecUpstream.WriteMsg | internal/coredns/dnssec_upstream.go:59-75 | the client gets the reply it asked for; the message from upstream is not modified |
| DnssecUpstream.UpstreamRequest | internal/coredns/dnssec_upstream.go:77-93 | a validating copy of the request, which itself is not modified |
| DnssecUpstream.AsksForDnssec | internal/coredns/dnssec_upstream.go:95-107 | the DO bit or a proof type in a question |
| DnssecMessages.ReplyMeans | internal/coredns/dnssec_upstream.go:59-75 | a client that set the DO bit or asked for a type 46, 47, 50 or 51 gets the message as it is; any other one gets each section without the records of these types and holes, in order, with the DO bit of the last OPT record cleared; AD survives exactly if asked for by either |
| DnssecMessages.PlainMeans | internal/coredns/dnssec_upstream.go:109-158 | so nothing of DNSSEC is left in a message with one OPT record at most |
| DnssecMessages.KeepPicks | internal/coredns/dnssec_upstream.go:115-143 | exactly the records that are there and not of types 46, 47, 50 and 51 are kept, in order |
| DnssecMessages.UpstreamAsks | internal/coredns/dnssec_upstream.go:81-91 | upstream is always asked for DNSSEC with AD set, CD clear and at least 1232 bytes; only the last OPT record is changed, or one added, and the rest is as the client asked |
| QueryPages.QueryPage | internal/admin/api.go:650-679 | the entries from the offset on up to the limit, and links to the next and previous offset exactly if there is such a page, found by asking for one event more |
| QueryPages.OrderedFacts | internal/audit/audit.go:519-530 | the answer is sorted by key in the direction asked for, ids breaking ties in the same direction, and has exactly the wanted entries |
| QueryPages.OnlyOneOrder | internal/audit/audit.go:519-524 | there is only one such order |
| QueryPages.PagesAreTheAnswer | internal/admin/api.go:666-676 | following next from the start ends, and the pages are the whole answer without gap or repeat |
| QueryPages.ThereAndBack | internal/admin/api.go:658-675 | next and then previous is back on the page before |
| Migrations.InterruptedThenFull | internal/storage/storage.go:218-234 | after any interrupted opens, a full one has run every statement of every migration once, each on what the one before left, and recorded each version once, in order |
| Migrations.StopsAtPrefix | internal/storage/storage.go:228-232 | at each stop the database is what a prefix of the list makes of it |
| Migrations.Store.ApplyMigration | internal/storage/storage.go:549-592 | statements and version row together, or nothing |
| Migrations.Store.Migrate | internal/storage/storage.go:218-234 | stops at the first migration that fails |
| Migrations.FilterMigrations | internal/storage/storage.go:538-547 | the migrations asked for, in the order of the list |
| Migrations.SelectedAre | internal/storage/storage.go:538-547 | a selection is exactly the migrations asked for, in the order of the list |
| Migrations.SelectedIsDistinct | internal/storage/storage.go:538-547 | a selection from distinct versions has distinct versions |
| Sessions.CacheIsTransparent | internal/admin/session.go:147-199 | after any calls and restarts, with writes that may fail, a session is valid only if the table has it unexpired, and exactly then if the read works |
| Sessions.CreatedIsValid | internal/admin/session.go:112-145 | a session is valid until the expiry it was created with and no longer, over any calls and restarts that do not delete it or look it up when it has expired |
| Sessions.GoneStaysGone | internal/admin/session.go:216-259 | once the marker is set, a session that is gone never returns, however often the older table is copied |
| Sessions.DeletedStaysDeleted | internal/admin/session.go:201-259 | in particular a deleted one, once the marker is set |
| Sessions.SessionStore.Valid | internal/admin/session.go:147-182 | expired entries are pruned, a table hit is cached, an expired row deleted |
| Sessions.SessionStore.ValidCached | internal/admin/session.go:184-199 | all expired entries leave the cache, and only those |
| Sessions.SessionStore.Create | internal/admin/session.go:112-145 | cached only once the row is written |
| Sessions.SessionStore.Delete | internal/admin/session.go:201-214 | always out of the cache, and out of the table if the write works |
| Sessions.SessionStore.CopyLegacySessions | internal/admin/session.go:218-259 | the rows of the older table are added where there is none and the marker set, or nothing |
| CorefileReading.CorefileReads | internal/coredns/corefile.go:12-45 | read back line by line: zone and port; errors, with stack traces and the query log exactly at debug level; metadata and corehole; the cache with its capacities, times and prefetching exactly if a TTL is positive; DNSSEC exactly in upstream mode; a conditional forward exactly if enabled; a line for each enabled rewrite of the four fields, with its words; and last the default forward, with force_tcp exactly if an enabled resolver speaks TCP |
| Corefile.WriteForward | internal/coredns/corefile.go:87-107 | the targets of the enabled resolvers in order, with the option if one of them speaks TCP |
| Corefile.TargetsAre | internal/coredns/corefile.go:138-181 | the targets are those of exactly the enabled resolvers, in order: an address with a transport as it is, else `tls://` with the server name as the zone of the host, `https://`, `dns://` or nothing before it by the protocol |
| Corefile.WriteRewrites | internal/coredns/corefile.go:109-125 | the lines of the enabled rewrites in order |
| Corefile.ForwardLine | internal/config/config.go:315-346 | for accepted resolvers there is a target, none is empty, and force_tcp is set exactly if all enabled ones speak TCP |
| Corefile.ValidateResolvers | internal/config/config.go:315-346 | accepts exactly if some resolver is enabled, each enabled one has an address and at most a server name without space or braces and one of the six protocols, and TCP is not mixed with others |
| ConfigUpdates.RunningIsStored | internal/admin/api.go:758-791 | over any run of updates that need no restart or fail before a reload took effect, CoreDNS runs the Corefile of the stored configuration, and storage, admin address and blocklists are stored as they were at the start |
| ConfigUpdates.RestartExactly | internal/admin/api.go:999-1024 | an update asks for a restart exactly if it changes storage, admin address or blocklists, or changes the DNS settings or the logging that CoreDNS runs with and cannot reload it now |
| ConfigUpdates.UpdateMeans | internal/admin/api.go:758-791 | the first step that fails decides the result; what is stored changes exactly when the save works, what is running exactly when a reload does, even if the save then fails |
| ConfigUpdates.StepSync | internal/admin/api.go:758-791 | an update loses this exactly if it is accepted and changes the Corefile, and either reloads it and fails to save, or saves it without a reload |
| ConfigUpdates.DebugUpdateLosesSync | internal/admin/api.go:769-777 | turning on debug logging does so, when the save fails after the reload or when there is nothing to reload |
| ConfigUpdates.PlainLosesSync | internal/admin/api.go:769-777 | the default settings are such a case |
| ConfigUpdates.UpdatedKeepsSync | internal/admin/api.go:999-1024 | an update that reports no restart has reloaded everything the Corefile depends on |
| ConfigUpdates.ConfigManager.Update | internal/admin/api.go:758-791 | the order of load, validate, reload, save and apply, and what each failure leaves |

## Left out

- HTTP handlers, the console, cookies, JSON and YAML coding, password hashing and random tokens: foreign code or plain input and output; ids and tokens are opaque values, and job ids are assumed not to repeat.
- Time: clock readings are parameters, instants and durations are unbounded integers, and the library's own calendar algorithm is replaced by the definition of the calendar.
- Databases: tables are sequences or maps in row order, a statement or a transaction is one atomic step that works or fails. A save that reports a timeout after it was written is not modelled, nor is a refresh-job store that is absent.
- Text: strings are sequences of characters. Lengths of names are counted in characters; only ASCII names are valid, so this changes no answer. Case mapping, white space, address parsing and regular expressions are functions with the few properties stated in `Text.Standard`.
- RefreshHistory.RefreshesAreSerial: the machine has one worker, because the program starts one; a second process on the same table is not modelled.
- RefreshJobs.RefreshJobs.Submit: one caller at a time inside the mutex; the interleavings of submitters with the worker are those of the step machine, not of the methods.
- RefreshWorker.RunJob: runs without a submission in between, and a cancellation falls before the first save or before the look at the context; the step machine has both at every step.
- Refresh-job listing and lookup, their status URL and the wait in `Close`: they only read, or only wait.
- SummaryCacheProtocol.ServedValuesAreFresh: a load that never returns holds its flight, as in the program; nothing is promised about how long a caller waits.
- ListParser.Parse: splitting text into lines, and its limit on the length of a line, are part of the reader, which may stop at any line.
- FilterAgreement.AgreementExactly: lists with groups and regex entries are outside it, because the blocklist ignores groups and has no regex entries; the rows read by a reload and by a decision are one state of the tables; both sides use the same client key, so an IPv4 address written as IPv6 is outside.
- FilterActivation.Activate: the two reloads together are not all or nothing, and it does not say so: the new blocklist stays when the rules fail.
- Rule, list, client and group editing, and the normalizing of kind and match-type text: each call only writes its row.
- AuditCleanup.AuditTable.CleanupOlderThan: rows inserted while the loop runs are not modelled, and the statement about time is for stamps up to the year 9999.
- AuditConservation.AuditConservation: an event keeps time, client and action; the other columns are copied unchanged. Totals are unbounded counters.
- AuditBuckets.TimeBuckets: all buckets are counted in one state of the table, for windows between the years 1 and 9999; the top lists and the `since` filter of a summary are left out.
- LocalDnsChain.ChainTheorem: addresses are kept as text; what CoreDNS does with the reply is not part of this model.
- DnssecMessages.PlainMeans: the DO bit is cleared in the last OPT record, as in the program, so the statement is for messages with at most one. Copying a message and finding its OPT record belong to the DNS library, which is not part of this model; they are modelled by what they return.
- CorefileReading.CorefileReads: for settings that carry no line break into the text; the listen address is not checked for one.
- QueryPages.QueryPage: the sort column is a number; limits below 1 are refused before this code.
- Migrations.InterruptedThenFull: opens of one list; a store opened first with a selection and later with the whole list would apply it in another order.
- Sessions.CacheIsTransparent: calls one after the other; a look-up and a delete that overlap can leave a deleted session in the cache.
- ConfigUpdates.RunningIsStored: the change a request makes is any function of the configuration, rules of validation other than those for resolvers are one answer, and an absent list equals an empty one. The restart flag says nothing of the bundled blocklist, which the Corefile does not mention.
