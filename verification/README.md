# Homelab automation: a Dafny model of its stateful cores

This project models the parts of the repository whose correctness is a matter of
whole histories rather than of single calls, and proves what they are for.

* **The health report between runs** (`Severity`, `Classification`, `Collectors`,
  `Diff`, `DiffLaws`, `HealthRun`, `Lifetime`, `History`, `ReportDates`, `Records`,
  `CollectorOrder`, `Reports`, `SharedIds`, `RepeatedIds`, `AlertPolicy`, `Baseline`,
  `Rotation`, `CrashRuns`). A run gathers what its collectors observed,
  classifies it, compares it with the last saved facts, updates the long-lived
  seen-state in place, prunes it and saves two files. `Diff.SeenStore` and
  `HealthRun.StateDir` are the program's loops over mutable state; `Lifetime` tells the
  life of one identity from what the runs observed, without looking at any seen-state;
  `History` proves that over every sequence of saved runs the two files say the same.
  `Reports` says when two states make no difference to any later report;
  `CollectorOrder` and `SharedIds` settle what the order of a map iteration can change,
  `CrashRuns` what a save that was cut off does to the next run.
* **The mail export** (`MailExport`, `ExportListing`, `ExportCounts`, `ExportSaves`, `ExportSafety`,
  `ExportProgress`, `ExportRepeat`, `ExportLocked`). A resumable job with a Done set, a Seen set and a watermark. Its
  effects on the outside world are a log (files moved into the outbox, states saved), so
  a kill between any two effects is a prefix of that log.
* **The schedule merge** (`Json`, `JsonGrammar`, `JsonIndent`, `JsonText`, `JsonDocument`,
  `ScheduleMerge`, `ScheduleEntries`). Check mode
  and apply mode over a shared file, with file operations that fail, on top of a JSON
  printer and parser that work on characters.
* **The import planner** (`ImportRow`, `ImportPlan`, `ImportPreference`, `Manifest`,
  `ImportRoundTrip`). A size-bucketed deduplication that equals the plain one, and a
  manifest that reads back as it was written.
* **The Uptime Kuma client and the provisioner** (`KumaCache`, `KumaWait`, `Provision`,
  `CatalogTargets`, `SharedNames`). A slice changed in place by events that equals a map,
  a wait for two signals under every interleaving, and a reconcile loop that settles.
* **Maintenance windows** (`Maintenance`). Weekly cyclic intervals and a conserving split.

`Ordering` holds optional values and Go's string order. Time is a number of seconds and
does not go back from run to run; values and limits are real numbers.

The pattern is the same throughout: methods with loops do what the program does and are
proved equal to specification functions; lemmas prove what those functions amount to, in
terms that do not mention them (what was observed, what was moved, which file is least).
Where a specification function follows the program branch by branch, a lemma named `...Told`
or `...Iff` says what comes of it by comparing inputs with results.

## Where the code does not do what one would expect

* `diff.go:171-177` says that resetting the first-seen date keeps a reopened issue from
  skipping past an age gate. Classification has already run by then (`run.go:171-175`),
  so the reopening run itself still sees the old age. `AlertPolicy.ReopeningRunSeesOldAge`
  gives the exact condition, for threshold and present rules;
  `AlertPolicy.ReturningIssueSkipsGate` is a history of four runs in which pending
  updates that came back a day ago are reported at once. `AlertPolicy.ReopenedWaitsForGate`
  proves the promise for all later runs. A consequence is `AlertPolicy.GatedAlertsReopen`:
  while runs come closer together than the gate, a condition that reopened once is never
  listed as persisting again in that lifetime, however long it stays.
* `severity.go:167-176` means to escalate only what has sat for the minimum age. What the
  gate measures, over every history, is the time since the identity was first observed in
  its lifetime, quiet or not, or last listed as reopened
  (`AlertPolicy.GateMeasuresOccurrence`). The number of pending updates is reported every
  day, zero included, so the first advisory after a quiet week is reported at once, as new
  (`AlertPolicy.FirstBreachSkipsGate`).
* `run.go:168-170` says spike rules compare against the last run. They compare against
  the last number read in the identity's lifetime (`Baseline.BaselineIsLastNumber`).
  `Baseline.BaselineFromLastRunIff` says exactly when that is the last run's reading, and
  `Baseline.SpikeOverGap` is a history of three runs in which it is not.
* `main.go:156-158` of the mail export says that a mail held back for a locked PDF is
  retried by a later run once the password is known. An incremental run only sees it if
  its date still lies in the window (`ExportLocked.RetriedIff`); behind the window only a
  sweep finishes it (`ExportLocked.HeldBackBehindWindow`).
* An export repeated after a clean run need not leave its state alone: if the same bytes
  come once as a locked PDF and once under another wanted name, the repeat counts the
  locked one as a duplicate and marks its mail done (`ExportRepeat.SameBytesTwoNames`).
  `ExportRepeat.RepeatChangesNothingIff` gives the exact condition, and
  `ExportRepeat.RepeatChangesNothing` shows that it holds whenever equal files agree on
  whether their name says PDF.
* A health-report save that is cut off after the rotation leaves the old facts in
  facts-previous, which no run reads back: the next run finds nothing persisting or
  resolved (`CrashRuns.ListsAfterLostFacts`).
* The provisioner never compares the kind of an existing monitor, only its address
  (`Provision.Matches`), so its fixed point is about addresses. Targets of one name can
  be satisfied together iff they do not contradict each other
  (`SharedNames.CanSettleIff`), and share a name safely iff the server has it already
  (`SharedNames.NamesStayUniqueIff`).
* The update event that `syncEmitWithUpdateEvent` waits for may come before the command
  is out (`KumaWait.UpdateMayComeFirst`); `KumaWait.UpdateFollowsIff` says exactly when it
  is known to come after. The cache need not be up to date when the wait returns, because
  `OnAny` reports the same two monitor events a second time (`client.go:496-502`); no
  lemma says it is.
* The window parser lets clock times through up to 99:99. `Maintenance.MeansItselfIffTidy`
  says exactly which of the windows that parse still mean the interval they spell.
* Ids can repeat within one run: the GitHub collector names a failed workflow without its
  branch (`collectors/github.go:238-243`). The summary then counts every observation while
  the lists hold the id once. `DiffLaws.CountsMatchListsIff` says exactly when the numbers
  agree; `RepeatedIds.RepeatsCountTwice` is a first run that reports two warnings and lists
  one. Lemmas that need distinct ids say so.
* A cancelled call of the Kuma client can return while the sender of its acknowledgement is
  waiting to hand it over. The return closes the channel, and the sender panics
  (`client.go:709-721`). `KumaWait.StrandedIff` says exactly when, and
  `KumaWait.CancelMayStrand` is the shortest such call.
* An apply of a schedule whose write was torn need not be repeatable:
  `ScheduleMerge.RetryCompletesIff` says when it is.

The walk over the map of collectors, on the other hand, does no harm. The diff sees repeats
in the fixed order of their collector, and as long as no two collectors share an id the walk
cannot be told from any report (`CollectorOrder.WalkOrderDoesNotMatter`). The collectors of
the repository do not share one: each begins its ids with kinds of its own. For two that did,
which is hypothetical, `SharedIds.SharedIdIff` says exactly when the order would show, in
this report or in any later one: unless the two observations are equally severe or both
quiet, and leave the same usable number for a spike rule.

## Model

Health report sources are under `tools/internal/healthreport`, the Kuma client's under
`tools/thirdparty/go-uptime-kuma-client`.

| member | source | states |
|---|---|---|
| Severity.Apply | tools/internal/healthreport/severity.go:330-335 | every observation is classified in place, each by the rule of its kind, and nothing but severity, notice and threshold changes |
| Classification.AppliedEach | tools/internal/healthreport/severity.go:330-335 | each observation is judged by the rule of its own kind, as new or not by its own id |
| Classification.ThresholdTold | tools/internal/healthreport/severity.go:146-186 | by comparing the value with the limits: crit iff the crit limit is passed, warn iff only the warn limit is, else info; the recorded limit is that of the level, and a notice is given iff only the notice limit is passed |
| Classification.WaitingThresholdTold | tools/internal/healthreport/severity.go:146-186 | while the minimum age is not reached nothing is raised, but a notice below the alert limits is still given |
| Classification.TextsAreNumbers | tools/internal/healthreport/severity.go:53-74 | a text that parses is the number it parses to, now and as the last value; nothing else is a number |
| Classification.SpikeTold | tools/internal/healthreport/severity.go:188-234 | plain limits first; within them a jump by the factor over a positive last number, not below the floor, raises a level of its own |
| Classification.EqualsTold | tools/internal/healthreport/severity.go:236-244 | crit iff the value is printed like a crit value, warn iff like a warn value only |
| Classification.NotEqualsTold | tools/internal/healthreport/severity.go:246-255 | raised iff the value is printed like none of the accepted ones |
| Classification.TruthTold | tools/internal/healthreport/severity.go:76-93 | a value means no iff it is nothing, false, zero, or one of six words in either case with blanks around it |
| Classification.TruthyRulesTold | tools/internal/healthreport/severity.go:257-275 | truthy and falsy rules split all values between them by that meaning |
| Classification.PresenceTold | tools/internal/healthreport/severity.go:277-301 | a present rule raises unless it still waits, a new_only rule iff the id is new |
| Classification.NothingRaised | tools/internal/healthreport/severity.go:126-144 | other subjects, kinds without a known rule and limits on what is no number raise nothing |
| Ordering.SortedUnique | tools/internal/healthreport/diff.go:134-139 | a strictly sorted list is determined by its set, so sorting hides the order of a map iteration |
| Ordering.SortKeys | tools/internal/healthreport/diff.go:135-139 | collecting keys in any order and sorting them gives the one strictly sorted list of them |
| Ordering.LessTold | tools/internal/healthreport/diff.go:139-139 | the order of strings is that of a dictionary |
| Diff.AttachPreviousValues | tools/internal/healthreport/diff.go:75-84 | every known observation gets its remembered value and, if there is one, its remembered first-seen date; the others are untouched |
| Diff.PreviousIDs | tools/internal/healthreport/diff.go:63-71 | the ids that some entry of the last facts has at warn or crit, and no others |
| Diff.PreviousById | tools/internal/healthreport/diff.go:116-119 | for each id the last entry with it |
| Diff.CurrentActionable | tools/internal/healthreport/diff.go:121-126 | for each alerting id the last alert with it |
| Diff.SeenStore.Compute | tools/internal/healthreport/diff.go:115-250 | the whole run in place: the new records, the dates written on the observations and the six lists are what the one-identity functions say, for all ids at once, repeated ids included |
| ReportDates.ShownSinceOccurrence | tools/internal/healthreport/diff.go:169-247 | over every history: an observation that raises no alert, or the one its id's alert is listed for, is shown with the date of the run that began the occurrence, this run included, which is the date of the record that the run leaves |
| ReportDates.OthersKeepTheirDate | tools/internal/healthreport/diff.go:121-126 | every other observation of an alerting id is shown with the date known before the run |
| ReportDates.ReopenedIsDatedNow | tools/internal/healthreport/diff.go:171-180 | a reopened issue, and a new one not observed before, is shown as first seen in this run |
| Records.RecordDescribes | tools/internal/healthreport/diff.go:187-245 | over every history: a record has the kind and subject of the observation that made it, and the severity of the last alert of its lifetime, or else of that observation |
| Records.RememberedForSixtyDays | tools/internal/healthreport/diff.go:263-293 | an id is known iff some run of the last sixty days observed it |
| Diff.SeenStore.NoteAlerts | tools/internal/healthreport/diff.go:141-203 | exactly the alerting ids are listed, noted and stamped, each from its record before the run |
| Diff.SeenStore.NoteAlert | tools/internal/healthreport/diff.go:169-202 | one alert updates only its own record and date; a reopened one starts over |
| Diff.SeenStore.NoteResolved | tools/internal/healthreport/diff.go:213-217 | exactly the records of resolved ids are marked, nothing else of them changes |
| Diff.SeenStore.NoteQuiet | tools/internal/healthreport/diff.go:219-247 | every sighting without an alert is recorded once, alerting ids are passed over, and all dates end up as specified |
| Diff.SeenStore.NoteQuietOne | tools/internal/healthreport/diff.go:225-246 | one quiet sighting updates only its own record and date |
| Diff.SeenStore.PruneSeen | tools/internal/healthreport/diff.go:266-293 | exactly the stale records go, and the number returned is how many |
| DiffLaws.ListsPartitionAlerts | tools/internal/healthreport/diff.go:121-217 | new, reopened and persisting are strictly sorted, disjoint and together this run's alerts; resolved is last run's alerts without this run's; each says which memory decided it |
| DiffLaws.MovesOfPersisting | tools/internal/healthreport/diff.go:148-158 | worsened and improved hold exactly the persisting ids whose severity went up or down, with both severities |
| DiffLaws.MovesInWords | tools/internal/healthreport/diff.go:148-158 | of what persists, worsened is what went to crit, or to warn from neither; improved is what went from crit to warn |
| DiffLaws.SeverityBeforeTold | tools/internal/healthreport/diff.go:128-147 | the last entry of the id counts, and an empty severity counts as info |
| DiffLaws.OneSighting | tools/internal/healthreport/diff.go:121-126 | without repeated ids a run meets an identity through one observation |
| DiffLaws.RecordAfterRun | tools/internal/healthreport/diff.go:169-247 | with distinct ids, the record after the run in terms of that one observation or of its absence |
| DiffLaws.OrderDoesNotMatter | tools/internal/healthreport/diff.go:115-250 | neither the diff nor the new seen-state depends on the order between different identities; repeats of one id may occur, in their own order |
| DiffLaws.OnlyNextRecord | tools/internal/healthreport/diff.go:141-247 | a run handles an identity by its own observations alone |
| DiffLaws.SwapIff | tools/internal/healthreport/diff.go:121-247 | exactly when swapping two sightings of an id leaves the same seen-record: told by severities, remembered numbers, kind and subject |
| DiffLaws.CountsMatchListsIff | tools/internal/healthreport/run.go:177-180 | crit plus warn is never less than the number of new, reopened and persisting ids, and equal iff no two alerts of the run share an id |
| DiffLaws.CountTold | tools/internal/healthreport/run.go:177-180 | the summary counts observations by severity |
| RepeatedIds.RepeatsCountTwice | tools/internal/healthreport/collectors/github.go:230-243 | a first run over a workflow that fails on two branches: two warnings in the summary, one id in the lists |
| DiffLaws.AlertsSurvivePruning | tools/internal/healthreport/diff.go:263-277 | what alerts in a run is never pruned in it, whatever the retention |
| DiffLaws.LostFactsReopenEverything | tools/internal/healthreport/diff.go:38-50 | if the last facts are lost, nothing is persisting or resolved, and all that ever alerted and alerts now starts over as reopened |
| HealthRun.StateDir.CollectCandidates | tools/internal/healthreport/run.go:156-166 | the unknown ids, and none at all while nothing is known |
| HealthRun.StateDir.CountAll | tools/internal/healthreport/run.go:177-180 | how many observations have each severity |
| Collectors.CollectorHealth | tools/internal/healthreport/run.go:79-100 | one observation for every collector that did not complete, in the order of their names |
| Collectors.HealthTold | tools/internal/healthreport/run.go:79-100 | the id, kind, subject and value of the observation about each collector that did not complete |
| Collectors.FailedNames | tools/internal/healthreport/run.go:182-188 | the sorted names of exactly the collectors that did not complete |
| Collectors.WdCloudBackupTargetUsage | tools/internal/healthreport/run.go:109-135 | the usage of the one target is derived from the first reading of its disk, unless it was observed |
| Collectors.DerivedTold | tools/internal/healthreport/run.go:109-135 | the derived observation has the first reading's value and its own identity, and is made iff no collector reported the target |
| Collectors.Gather | tools/internal/healthreport/run.go:145-150 | all blocks in some order of the map, then collector health, then the derived observation |
| Collectors.GatheredInOrder | tools/internal/healthreport/run.go:144-150 | the observations of the collectors, then those about them, then the derived one |
| HealthRun.StateDir.Assemble | tools/internal/healthreport/run.go:144-208 | gather, attach, classify, diff, count and list the failed collectors; the saved files are left alone |
| HealthRun.StateDir.Run | tools/internal/healthreport/diff.go:297-323 | a run that reaches the end of its save replaces both files by those of the run, pruned |
| CollectorOrder.GatheredAlike | tools/internal/healthreport/run.go:145-150 | however the map of collectors is walked, if no two share an id the same is gathered of every identity, repeats inside a collector included |
| CollectorOrder.RunsAlike | tools/internal/healthreport/run.go:144-208 | inputs that differ in the order of identities give the same lists, and states no later run can tell apart |
| CollectorOrder.WalkOrderDoesNotMatter | tools/internal/healthreport/run.go:145-175 | over whole histories, each day walked in any order: the same reports, and states that stay indistinguishable |
| SharedIds.SharedIdSwaps | tools/internal/healthreport/run.go:145-150 | two collectors that share one id: walking them the other way round swaps its two sightings and nothing else |
| Reports.IndistinctForEver | tools/internal/healthreport/diff.go:63-250 | states that agree on the dates and usable numbers of all records, and on the actionable ids with their severities, give the same lists in every run of every continuation |
| Reports.SeverityShows | tools/internal/healthreport/diff.go:148-158 | an id that was actionable at two different severities is told apart by the next run |
| Reports.BaselineShows | tools/internal/healthreport/severity.go:189-232 | remembered numbers that a spike rule can use differently are told apart by some next run |
| SharedIds.SharedIdIff | tools/internal/healthreport/run.go:145-175 | this run's lists and those of every continuation then agree in both orders iff the two observations, as classified, are equally severe or both quiet and leave the same usable number |
| SharedIds.SharedIdWalksIff | tools/internal/healthreport/run.go:145-175 | the same for two walks over the collectors' results |
| SharedIds.SharedIdRecordIff | tools/internal/healthreport/diff.go:121-247 | the seen-state then does not depend on the order iff the two observations leave the same record |
| SharedIds.SharedIdReachesReport | tools/internal/healthreport/run.go:145-175 | a history of two days, the second walked in two orders, and only one report says the issue became worse |
| Lifetime.AliveIffSeenLately | tools/internal/healthreport/diff.go:263-293 | an identity is remembered exactly as long as some run within the retention observed it |
| Lifetime.LifeContinues | tools/internal/healthreport/diff.go:169-247 | one run keeps the record's dates faithful to what happened, or ends the lifetime |
| Lifetime.DatesSummarise | tools/internal/healthreport/diff.go:115-293 | over every life, first-seen, last-seen, last-actionable and resolved-at are determined by what happened since the birth |
| Lifetime.CountSummarises | tools/internal/healthreport/diff.go:187-232 | the count is the number of counted sightings since the birth |
| Lifetime.AlertsKeepReopening | tools/internal/healthreport/diff.go:148-164 | if no reopening is directly followed by an alert, every later alert of the lifetime is a reopening |
| History.RecordFollowsLife | tools/internal/healthreport/diff.go:115-293 | a whole run with pruning moves one record as its life's state machine does, for any observation list |
| History.StateFollowsLife | tools/internal/healthreport/diff.go:115-323 | in every state reached by completed saves the two files hold what each identity's life amounts to |
| History.SavedRecordTellsHistory | tools/internal/healthreport/diff.go:115-293 | a record exists iff a run within the retention observed the id, and its dates tell the history of its lifetime |
| History.CountIsRunsObserved | tools/internal/healthreport/diff.go:187-232 | with distinct ids the count is the number of runs that observed the id since its record was created |
| History.ListsTellHistory | tools/internal/healthreport/diff.go:141-217 | over every sequence of saved runs: new iff no run of the lifetime alerted, persisting iff the last run did, reopened iff an earlier one did but the last did not, resolved iff only the last did |
| History.MovesTellHistory | tools/internal/healthreport/diff.go:148-158 | with distinct ids worsened are exactly those that went from warn in the last run to crit in this one, improved the reverse |
| History.SavedStateIsConsistent | tools/internal/healthreport/diff.go:169-293 | what the last run had at warn or crit has a record of that very run; resolved-at is empty iff the id is actionable in the facts; first-seen, last-actionable and last-seen are in order |
| AlertPolicy.NewOnlyAlertsAtBirth | tools/internal/healthreport/run.go:156-175 | a new_only id alerts only in the run that creates its record, never while nothing is known, and is then listed as new and nowhere else |
| AlertPolicy.NewOnlyAlertsIff | tools/internal/healthreport/run.go:156-166 | over every history a new_only observation is raised iff no run within the retention observed its id, and one observed another |
| AlertPolicy.NewOnlyOncePerLifetime | tools/internal/healthreport/severity.go:293-303 | in one lifetime of its record a new_only id alerts in at most one run |
| AlertPolicy.GateHolds | tools/internal/healthreport/severity.go:277-291 | an age-gated id with no record, or a too young one, is not at warn or crit |
| AlertPolicy.ReopenedWaitsForGate | tools/internal/healthreport/diff.go:170-185 | once an id was listed as reopened, no later run less than the gate after it puts it at warn or crit, whatever came between |
| AlertPolicy.GatedAlertsReopen | tools/internal/healthreport/diff.go:148-185 | after one reopening, and while runs come closer together than the gate, every alert of that lifetime is listed as reopened and never as persisting |
| AlertPolicy.ReopeningRunSeesOldAge | tools/internal/healthreport/run.go:168-175 | in the reopening run itself a waiting condition, present or beyond an alert limit, alerts iff the age of its earlier occurrence has reached the gate |
| AlertPolicy.ReturningIssueSkipsGate | tools/internal/healthreport/diff.go:170-185 | a history of four runs in which an age-gated issue that came back within a day is reported at once |
| AlertPolicy.GateMeasuresOccurrence | tools/internal/healthreport/severity.go:167-176 | over every history, an undated condition under a rule that waits alerts iff the id is known and its first sighting in the lifetime, or its last reopening, is as old as the gate |
| AlertPolicy.FirstBreachSkipsGate | tools/internal/healthreport/collectors/sshfacts.go:247-256 | a history of two runs: zero updates on day 0, and those of day 8 are reported at once as new |
| Baseline.BaselineIsLastNumber | tools/internal/healthreport/diff.go:86-96 | with distinct ids the remembered value is the number read by the last run of the lifetime that read one |
| Baseline.SpikeBaseline | tools/internal/healthreport/severity.go:215-233 | the previous value a spike is measured against, told from the runs |
| Baseline.BaselineFromLastRunIff | tools/internal/healthreport/run.go:168-172 | the baseline is what the last run read iff that run read a number or no run of the lifetime did |
| Baseline.SpikeOverGap | tools/internal/healthreport/severity.go:215-233 | a history of three runs in which a spike is measured against the first, the second having read nothing |
| Rotation.StateFiles.Save | tools/internal/healthreport/diff.go:310-323 | the disk after every step of a save, half-written temporary files included |
| Rotation.CrashSafe | tools/internal/healthreport/diff.go:297-323 | at every crash point of every sequence of saves no state file is half written, the seen file is the last one completed, and the last completed facts are in facts-latest, or in facts-previous exactly if a later save was cut off after the rotation |
| Rotation.SeenNeverNewer | tools/internal/healthreport/diff.go:318-323 | the seen file is never newer than the newest facts on disk |
| Rotation.CompletedSaveIsWhole | tools/internal/healthreport/diff.go:351-361 | after a completed save both files are of that save, whatever crashed before |
| CrashRuns.LoadedFromDisk | tools/internal/healthreport/diff.go:48-58 | after any sequence of runs whose saves are cut off anywhere, a run loads what the files on the disk hold |
| CrashRuns.CompletedRunsAreHistory | tools/internal/healthreport/diff.go:297-323 | runs whose saves all complete are an ordinary history |
| CrashRuns.ListsAfterLostFacts | tools/internal/healthreport/diff.go:310-320 | the lists after a cut that lost the facts: nothing persisting or resolved, alerts judged by the seen-state from before it |
| CrashRuns.ListsAfterNewerFacts | tools/internal/healthreport/diff.go:318-323 | the lists after a cut between facts and seen file, told from the cut run and the records before it |
| CrashRuns.CutForgetsFirstSighting | tools/internal/healthreport/diff.go:318-323 | what the cut run saw for the first time is persisting next, and yet its record is created there |
| MailExport.Exporter.Save | tools/cmd/paperless-mail-export/main.go:126-136 | what is saved is the whole state in memory, or nothing |
| MailExport.Exporter.ProcessMail | tools/cmd/paperless-mail-export/main.go:442-511 | the attachments one after another with every way to fail, the files moved, and failed before locked before fine |
| MailExport.Exporter.Finish | tools/cmd/paperless-mail-export/main.go:404-425 | how a mail is booked, and when the state is persisted |
| MailExport.Exporter.ProcessItem | tools/cmd/paperless-mail-export/main.go:396-425 | one listed mail: passed over if it has no attachments or is done, else processed and booked |
| MailExport.Exporter.ProcessPage | tools/cmd/paperless-mail-export/main.go:395-426 | the mails of a page in order, up to a failing save |
| MailExport.Exporter.ProcessPages | tools/cmd/paperless-mail-export/main.go:389-433 | paging sees the mails of all pages in order, up to an empty or last page, a list error or a failing save |
| MailExport.Exporter.Run | tools/cmd/paperless-mail-export/main.go:372-440 | the run as a whole; only one that reaches the end without an error moves the watermark and saves |
| ExportListing.WindowTold | tools/cmd/paperless-mail-export/main.go:383-386 | an incremental run asks for whole days, from the one in which the overlap before the watermark begins; others ask for everything |
| ExportListing.ListedTold | tools/cmd/paperless-mail-export/main.go:389-434 | a run is shown the pages up to the first that ends the list or else up to the first error, and knows which it was |
| ExportCounts.MailTold | tools/cmd/paperless-mail-export/main.go:442-510 | every attachment before the first that fails is skipped, known, locked or exported and is counted as that, told from the attachments and passwords; the mail fails iff one does |
| ExportCounts.EachMailIsBooked | tools/cmd/paperless-mail-export/main.go:394-425 | every mail that the run gets to: all seven numbers, what becomes done, known and held back |
| ExportSaves.SavedAllAlong | tools/cmd/paperless-mail-export/main.go:420-425 | at every mail of every run fewer finished mails than saveEvery are not on disk, and exactly so many when it has aborted |
| ExportSaves.EachMailSavesWhenDue | tools/cmd/paperless-mail-export/main.go:420-425 | a mail makes the whole state be saved, or the run abort, exactly when a save is due, and no save happens otherwise |
| ExportSaves.AbortsIff | tools/cmd/paperless-mail-export/main.go:420-425 | a run aborts iff a save that was due failed |
| ExportSaves.CutLosesFew | tools/cmd/paperless-mail-export/main.go:420-425 | a run cut off anywhere loses fewer finished mails than saveEvery, or exactly so many at a save that was due |
| ExportSafety.RunSafe | tools/cmd/paperless-mail-export/main.go:400-425 | during a run: every done mail has all its wanted attachments in Seen, and every hash in Seen is in the outbox |
| ExportSafety.KillSafe | tools/cmd/paperless-mail-export/main.go:126-136 | the same of every saved state, over any sequence of runs each killed between any two effects |
| ExportProgress.WindowMonotone | tools/cmd/paperless-mail-export/main.go:383-386 | a later watermark never opens the day-cut window further back |
| ExportProgress.CutIsOnTheWay | tools/cmd/paperless-mail-export/main.go:389-440 | a run cut off anywhere leaves a state with the old watermark and no less done and seen |
| ExportProgress.WatermarkIsLatestDone | tools/cmd/paperless-mail-export/main.go:434-438 | only a clean run moves the watermark, and then to the date of the latest mail it finished |
| ExportProgress.ReportedNumbersAreTrue | tools/cmd/paperless-mail-export/main.go:396-425 | of a run that reaches its final save: exported is the number of files moved and of contents learned, processed that of mails newly done, scanned that of mails listed |
| ExportProgress.RunForgetsNothing | tools/cmd/paperless-mail-export/main.go:383-439 | one run, however it ends, keeps every outstanding mail inside the next window; a clean run leaves none |
| ExportProgress.BacklogStaysInWindow | tools/cmd/paperless-mail-export/main.go:383-439 | the same over any mix of incremental, sweep, failing, aborted and killed runs of a mailbox that gains dated mails inside the window, with a watermark that never goes down |
| ExportRepeat.NoHashMovedTwice | tools/cmd/paperless-mail-export/main.go:470-505 | over runs that each reach their final save, the outbox got every known content exactly once |
| ExportRepeat.KillMayMoveTwice | tools/cmd/paperless-mail-export/main.go:495-505 | a kill between a move and the next save makes the file move again: the export is at-least-once |
| ExportRepeat.RepeatExportsNothing | tools/cmd/paperless-mail-export/main.go:395-439 | a repeat after a clean run moves no file and learns no content, whatever goes wrong in it |
| ExportRepeat.RepeatChangesNothingIff | tools/cmd/paperless-mail-export/main.go:470-510 | such a repeat leaves Done, Seen and Watermark unchanged iff every mail left in the window has a wanted file that was never exported |
| ExportRepeat.RepeatChangesNothing | tools/cmd/paperless-mail-export/main.go:476-485 | it does so, even with locked mails, if equal files agree on whether their name says PDF |
| ExportRepeat.SameBytesTwoNames | tools/cmd/paperless-mail-export/main.go:471-485 | and need not otherwise: a mailbox whose repeat marks a locked mail done |
| ExportLocked.ShownIff | tools/cmd/paperless-mail-export/main.go:383-386 | a faithful run that reaches the end of the list is shown a mail iff its date lies in the window; a sweep is shown all |
| ExportLocked.RetriedIff | tools/cmd/paperless-mail-export/main.go:156-159 | once its passwords are known, a held-back mail is finished by the next untroubled run iff its date lies in the window of that run |
| ExportLocked.HeldBackBehindWindow | tools/cmd/paperless-mail-export/main.go:476-484 | a mailbox in which the next incremental run misses such a mail and a sweep finishes it |
| Json.PrintEmits | tools/internal/schedulemerge/schedulemerge.go:94-100 | indenting adds white space and nothing else, at every depth |
| JsonIndent.PrintIsIndented | tools/internal/schedulemerge/schedulemerge.go:95-101 | the printed form of any value is its compact form, indented in one pass over the tokens that knows nothing of the tree |
| JsonIndent.EscapesTold | tools/internal/schedulemerge/schedulemerge.go:86-90 | which characters are written as they are, and how the others are |
| Json.ParseEmitted | tools/internal/schedulemerge/schedulemerge.go:119-126 | parsing gives back the printed tree, whatever follows it |
| Json.ParsedCanonical | tools/internal/schedulemerge/schedulemerge.go:122-126 | what parses is a tree with sorted keys, repeated keys of the text overwritten |
| JsonGrammar.ParsesIff | tools/internal/schedulemerge/schedulemerge.go:122-127 | tokens are read as a value iff they spell a tree that settles to it; nothing else is accepted |
| JsonGrammar.LastKeyCounts | tools/internal/schedulemerge/schedulemerge.go:122-127 | of equal keys the last counts, and keys come out in order |
| JsonText.UnquoteEscaped | tools/internal/schedulemerge/schedulemerge.go:84-92 | a written string is read back, whatever characters it holds |
| JsonText.LexText | tools/internal/schedulemerge/schedulemerge.go:84-126 | written text is cut back into its tokens |
| JsonDocument.MarshalSorted | tools/internal/schedulemerge/schedulemerge.go:70-107 | writing entry after entry under sorted keys gives the indented text of the whole object, character for character |
| JsonDocument.UnmarshalMarshal | tools/internal/schedulemerge/schedulemerge.go:67-126 | reading what was written gives the same map |
| JsonDocument.MarshalInjective | tools/internal/schedulemerge/schedulemerge.go:67-69 | the text determines the map and is determined by it, so rewriting unchanged content is no drift |
| ScheduleMerge.ScheduleID | tools/internal/schedulemerge/schedulemerge.go:57-65 | the id is "schedule" with the letters and digits of the name in order |
| ScheduleEntries.AlnumTold | tools/internal/schedulemerge/schedulemerge.go:57-65 | letters and digits stay, everything else falls out |
| ScheduleMerge.MergedLookup | tools/internal/schedulemerge/schedulemerge.go:131-145 | each path of the merged map: managed by the last entry with that name, else retired, else as it was |
| ScheduleMerge.UserScripts.Merge | tools/internal/schedulemerge/schedulemerge.go:111-145 | the loops build that map |
| ScheduleMerge.UserScripts.SaveFiles | tools/internal/schedulemerge/schedulemerge.go:174-205 | backup, schedule and runtime copy, up to the first operation that fails |
| ScheduleMerge.UserScripts.RemoveRetired | tools/internal/schedulemerge/schedulemerge.go:207-215 | the retired directories go in order, up to one that cannot be removed |
| ScheduleMerge.UserScripts.Run | tools/internal/schedulemerge/schedulemerge.go:109-219 | both modes with every way to fail: the outcome exactly, a check and a read or parse error change nothing, an apply leaves what its steps did |
| ScheduleEntries.ManagedEntriesWritten | tools/internal/schedulemerge/schedulemerge.go:136-144 | after a run that ends well the file parses, and under the path of the last entry of each managed name is an object with exactly four keys: nothing in custom, the frequency, the id and the path itself |
| ScheduleEntries.ShippedSchedules | tools/internal/schedulemerge/schedulemerge.go:136-144 | the entries of the three shipped programs, spelled out |
| ScheduleEntries.RetiredAreGone | tools/internal/schedulemerge/schedulemerge.go:130-135 | a retired script that is not managed has neither entry nor directory |
| ScheduleEntries.OutcomeTold | tools/internal/schedulemerge/schedulemerge.go:109-172 | how a run ends: reading and parsing come first in either mode |
| ScheduleEntries.SucceedsIff | tools/internal/schedulemerge/schedulemerge.go:174-218 | an apply succeeds iff none of the operations it gets to fails |
| ScheduleEntries.StepsInOrder | tools/internal/schedulemerge/schedulemerge.go:174-218 | wherever an apply was stopped: the runtime copy changes only once the schedule is as wanted, directories go only once both are, and the backup changes only with the schedule |
| ScheduleMerge.SuccessIsApplied | tools/internal/schedulemerge/schedulemerge.go:174-218 | an apply that reports success has done all of it |
| ScheduleMerge.OldScheduleIsSafe | tools/internal/schedulemerge/schedulemerge.go:174-193 | whatever fails, before the schedule is touched its old text is in the backup, and only retired directories go |
| ScheduleMerge.RetryCompletes | tools/internal/schedulemerge/schedulemerge.go:151-215 | an apply that failed anywhere but in the middle of writing the schedule can be repeated and then reaches the same files |
| ScheduleMerge.RetryCompletesIff | tools/internal/schedulemerge/schedulemerge.go:151-215 | whatever failed, a torn write included: the repeat reaches the files of an apply that did not fail iff what is left still loads and merges to the same document |
| ScheduleMerge.CheckAgreesWithApply | tools/internal/schedulemerge/schedulemerge.go:151-172 | a check is clean iff an apply would leave schedule, runtime copy and script directories as they are |
| ScheduleMerge.ApplyThenCheckIsClean | tools/internal/schedulemerge/schedulemerge.go:109-219 | apply followed by check is clean and a second apply changes nothing, for any configuration |
| ScheduleMerge.ForeignEntriesKept | tools/internal/schedulemerge/schedulemerge.go:131-136 | entries neither managed nor retired keep their values |
| ScheduleMerge.AppliedAllSettles | tools/internal/schedulemerge/schedulemerge.go:131-145 | what several configurations leave at a path, told without an order |
| ScheduleMerge.OrderDoesNotMatter | tools/internal/schedulemerge/schedulemerge.go:109-219 | configurations whose names do not overlap reach the same files in any order |
| ScheduleMerge.AllChecksClean | tools/internal/schedulemerge/schedulemerge.go:151-172 | and then every one of them checks clean |
| ScheduleMerge.BootstrapApart | tools/cmd/schedule-merge-unraid/main.go:25-33 | the bootstrap configuration manages no name of the other two |
| ScheduleMerge.BackupApart | tools/cmd/schedule-merge-unraid-backup/main.go:29-35 | nor does the backup configuration |
| ScheduleMerge.AoostarApart | tools/cmd/schedule-merge-unraid-aoostar/main.go:23-35 | nor does the display configuration |
| ScheduleMerge.ShippedConfigsApart | tools/cmd/schedule-merge-unraid-aoostar/main.go:23-35 | so the three shipped configurations may be applied in any order |
| ImportPlan.Sort | tools/cmd/paperless-import/main.go:259-272 | a permutation in order of class priority and path |
| ImportPlan.BySize | tools/cmd/paperless-import/main.go:234-237 | the paths of each size, in the order found |
| ImportPlan.HashAll | tools/cmd/paperless-import/main.go:243-247 | every readable file of a group gets its hash |
| ImportPlan.HashBuckets | tools/cmd/paperless-import/main.go:234-248 | exactly the readable files whose size occurs twice are hashed |
| ImportPlan.DedupeCounts | tools/cmd/paperless-import/main.go:273-295 | rows, duplicates and skipped files add up to the scanned ones, and skipped are those of class skip |
| ImportPlan.DedupeKeeps | tools/cmd/paperless-import/main.go:274-294 | the pass over hashes keeps exactly the files that no earlier unskipped file equals in content |
| ImportPlan.ShortcutIsExact | tools/cmd/paperless-import/main.go:230-248 | hashing only colliding sizes gives the same rows and counts as hashing everything |
| ImportPlan.PlanKeepsLeast | tools/cmd/paperless-import/main.go:230-296 | the plan has one row for exactly the least file, by priority and path, of every content that is not skipped, and no other rows; skipped files displace nothing; nothing is lost |
| ImportPlan.OneOfEachContent | tools/cmd/paperless-import/main.go:230-232 | no content has two files in the plan |
| ImportPlan.DropDuplicates | tools/cmd/paperless-import/main.go:273-294 | the pass over the sorted files keeps the first of every hash and counts the rest |
| ImportPlan.TotalsTold | tools/cmd/paperless-import/main.go:273-293 | the totals per class are the number and bytes of its rows |
| ImportPlan.TagsBounded | tools/cmd/paperless-import/main.go:130-155 | a file gets at most two tags, each a directory name |
| ImportPlan.BuildPlan | tools/cmd/paperless-import/main.go:233-296 | the loops compute that plan with destinations and totals: given a collision-free hash it keeps exactly the least file of each content, and rows, duplicates and skipped files add up to the scanned ones |
| ImportPreference.PlannedIff | tools/cmd/paperless-import/main.go:253-293 | in the names of the classes: a file is imported iff it is not to be skipped and no equal one is preferred |
| ImportPreference.LowerCopyGoes | tools/cmd/paperless-import/main.go:231-271 | personal over knowledge over unsorted, and of one class the path that comes first; the other copy has no row |
| ImportPreference.HashesTold | tools/cmd/paperless-import/main.go:234-248 | a row carries the hash of its content if another file has the same size and it can be read |
| ImportPreference.SkippedTotals | tools/cmd/paperless-import/main.go:276-283 | the totals of the class to skip are the number and bytes of what was skipped |
| ImportPreference.FirstRuleDecides | tools/cmd/paperless-import/main.go:115-128 | the first rule that a path lies below decides |
| ImportPreference.NoRuleDecides | tools/cmd/paperless-import/main.go:115-128 | without one the file is unsorted, below its first two path elements |
| ImportPreference.DestinationTold | tools/cmd/paperless-import/main.go:130-156 | where a file in any directories below its root goes, for each class |
| Manifest.WriteManifest | tools/cmd/paperless-import/main.go:298-309 | one line per row, five fields with tabs between |
| Manifest.ColumnsTold | tools/cmd/paperless-import/main.go:305-307 | class, path, destination, size and hash, in this order |
| Manifest.ReadManifest | tools/cmd/paperless-import/main.go:311-330 | one row per line of five fields, other lines passed over, up to a line longer than the buffer, which is an error |
| Manifest.LineRead | tools/cmd/paperless-import/main.go:320-327 | a line is a row iff it has five columns, which are read in the order in which they are written |
| Manifest.LinesTold | tools/cmd/paperless-import/main.go:317-319 | a line of a mebibyte stops the reading, and a carriage return at the end is dropped |
| Manifest.ManifestRoundTrip | tools/cmd/paperless-import/main.go:298-330 | reading what was written gives back the same rows, sizes and empty hashes included, up to the first row whose line is too long; an error is reported iff there is one |
| ImportRoundTrip.PlanAndReload | tools/cmd/paperless-import/main.go:233-330 | planning, writing the manifest and reading it back gives the planned rows |
| Maintenance.HitsIffCovers | tools/internal/healthreport/collectors/loki.go:131-155 | for windows on the clock the test holds iff the minute of the week lies in the union of cyclic intervals, across midnight and from Sunday to Monday |
| Maintenance.EmptyWindow | tools/internal/healthreport/collectors/loki.go:139-144 | a window that ends where it starts covers nothing |
| Maintenance.MeansItselfIffTidy | tools/internal/healthreport/collectors/loki.go:103-129 | of all windows that parse, on one day or daily, exactly the tidy ones mean the cyclic interval they spell |
| Maintenance.InWindow | tools/internal/healthreport/collectors/loki.go:134-155 | true iff some window covers the minute |
| Maintenance.SplitMaintenance | tools/internal/healthreport/collectors/loki.go:162-180 | an order-keeping partition of the series, judged by the hour a bucket starts |
| Maintenance.JudgedByItsStart | tools/internal/healthreport/collectors/loki.go:161-180 | a bucket is suppressed iff the minute of the week an hour before its stamp lies in a window |
| Maintenance.MorningWindow | tools/internal/healthreport/collectors/loki.go:161-166 | a window from 05:00 to 08:00 swallows the buckets stamped from 06:00 on, before 09:00 |
| Maintenance.SplitConserves | tools/internal/healthreport/collectors/loki.go:167-180 | the two value sums and lengths add up to those of the series |
| Maintenance.SplitUnique | tools/internal/healthreport/collectors/loki.go:167-180 | there is only one such split |
| KumaCache.Client.OnMonitorList | tools/thirdparty/go-uptime-kuma-client/client.go:378-391 | the cache becomes the listed monitors in some order, in a new array |
| KumaCache.Client.OnUpdate | tools/thirdparty/go-uptime-kuma-client/client.go:394-415 | each updated monitor overwrites its cell or is appended, in some order of the map; slices handed out earlier keep their content |
| KumaCache.Client.OnDelete | tools/thirdparty/go-uptime-kuma-client/client.go:418-431 | the cell is cut out in the same array; slices handed out earlier keep their content |
| KumaCache.Client.ShiftDown | tools/thirdparty/go-uptime-kuma-client/client.go:425 | the cells after the cut move one down |
| KumaCache.Client.PutOne | tools/thirdparty/go-uptime-kuma-client/client.go:400-411 | the first cell with the id is overwritten, or the monitor is appended |
| KumaCache.Client.RefreshMonitor | tools/thirdparty/go-uptime-kuma-client/tag.go:110-131 | the fetched monitor replaces its cell or is added |
| KumaCache.Client.DeleteTag | tools/thirdparty/go-uptime-kuma-client/tag.go:88-102 | the tag is filtered out of every cached monitor, and out of no slice handed out earlier |
| KumaCache.DroppedEverywhere | tools/thirdparty/go-uptime-kuma-client/tag.go:80-106 | afterwards no monitor has the tag, and each keeps its other tags in order, its place, id and name |
| KumaCache.PlacesKept | tools/thirdparty/go-uptime-kuma-client/client.go:393-431 | overwriting keeps a monitor's place, cutting closes the gap, and no other one moves |
| KumaCache.Client.GetMonitors | tools/thirdparty/go-uptime-kuma-client/monitor.go:19-25 | a fresh copy of the cache |
| KumaCache.Client.GetMonitorTags | tools/thirdparty/go-uptime-kuma-client/tag.go:266-277 | the tags that the map has for the id, or not found iff the map lacks it |
| KumaCache.Client.GetTagMonitors | tools/thirdparty/go-uptime-kuma-client/tag.go:283-298 | the ids of the map's monitors that carry the tag, each once |
| KumaCache.StepShows | tools/thirdparty/go-uptime-kuma-client/client.go:378-431 | every step on the slice is the same step on a plain map |
| KumaCache.CacheIsMap | tools/thirdparty/go-uptime-kuma-client/client.go:378-431 | after any sequence of steps the slice has unique ids and shows the fold of the steps over a plain map |
| KumaCache.ShowsOne | tools/thirdparty/go-uptime-kuma-client/client.go:378-391 | a slice shows only one map |
| KumaCache.TagQueryAgrees | tools/thirdparty/go-uptime-kuma-client/tag.go:287-297 | the tag query over the slice answers what the map says |
| KumaWait.AlwaysExplained | tools/thirdparty/go-uptime-kuma-client/client.go:696-746 | at every moment of every interleaving, what the wait holds is backed by what arrived, and when |
| KumaWait.SuccessNeedsBoth | tools/thirdparty/go-uptime-kuma-client/client.go:727-748 | success comes only after an OK acknowledgement of the command and a matching update event that came after the listener was registered, in either order |
| KumaWait.BlockedLacksSignal | tools/thirdparty/go-uptime-kuma-client/client.go:731-746 | a loop that waits and can take nothing was not cancelled and lacks one of the two signals |
| KumaWait.BothSignalsSucceed | tools/thirdparty/go-uptime-kuma-client/client.go:731-746 | with both signals in and no cancellation, whatever select takes leads to success |
| KumaWait.UpdateMayComeFirst | tools/thirdparty/go-uptime-kuma-client/client.go:702-722 | the update event may come before the command is out, and the call still succeeds |
| KumaWait.UpdateFollowsIff | tools/thirdparty/go-uptime-kuma-client/client.go:702-748 | every success after the command is out brings an update of its own iff none came between registering and emitting, or the call was cancelled by then |
| KumaWait.StrandedIff | tools/thirdparty/go-uptime-kuma-client/client.go:709-746 | a call returns with its acknowledgement handed in and never taken iff it takes a cancellation while the acknowledgement waits |
| KumaWait.CancelMayStrand | tools/thirdparty/go-uptime-kuma-client/client.go:709-746 | the shortest call that does |
| KumaWait.SyncEmitWithUpdateEvent | tools/thirdparty/go-uptime-kuma-client/client.go:690-749 | every execution of the call is one of those interleavings, with its outcome, and tells whether it strands the sender |
| Provision.TargetsExpected | tools/cmd/provision-kuma/main.go:125-141 | every synced name is expected, so no sync is undone as an orphan |
| CatalogTargets.ServiceTold | tools/cmd/provision-kuma/main.go:143-176 | which services are watched, and at which address |
| CatalogTargets.CatalogInOrder | tools/cmd/provision-kuma/main.go:58-71 | services, then hosts, then the six port checks, spelled out |
| CatalogTargets.ExpectedIff | tools/cmd/provision-kuma/main.go:125-141 | expected are the names of the targets and those of hosts without an address |
| Provision.CreateAndStart | tools/cmd/provision-kuma/main.go:153-162 | a created monitor is active iff it could be resumed, and stays if it could not |
| Provision.SyncTarget | tools/cmd/provision-kuma/main.go:271-303 | one target: left alone, patched or created, with every way to fail, and booked accordingly |
| Provision.SyncServiceMonitors | tools/cmd/provision-kuma/main.go:164-216 | the monitored services with a domain, in order |
| Provision.SyncPingMonitors | tools/cmd/provision-kuma/main.go:218-259 | the hosts with a name and an address, in order |
| Provision.SyncTCPMonitors | tools/cmd/provision-kuma/main.go:265-269 | the six fixed port checks, in order |
| Provision.DeleteOrphanedMonitors | tools/cmd/provision-kuma/main.go:305-317 | exactly the unexpected names go, unless that fails, whatever the map order |
| Provision.ExistingMonitors | tools/cmd/provision-kuma/main.go:374-382 | the monitors of the server by name |
| Provision.Run | tools/cmd/provision-kuma/main.go:374-393 | the run over the monitors as a whole |
| Provision.RunShows | tools/cmd/provision-kuma/main.go:164-317 | whatever fails, and even if targets share names the server has: each name is as its last unmatched target wants it or as it was, expected names are never deleted, orphans go unless that fails, no other name appears |
| Provision.RunShowsEach | tools/cmd/provision-kuma/main.go:164-317 | the same target by target, if their names are distinct |
| Provision.RunConverges | tools/cmd/provision-kuma/main.go:164-317 | with distinct target names and without failed calls: exactly the targets and the expected names that were there, every target matching, new ones active, the rest untouched |
| CatalogTargets.RunWatches | tools/cmd/provision-kuma/main.go:164-303 | what such a run makes of each target's monitor: untouched if it was right, else its kind and address are set and the rest kept; new ones are active and of their kind |
| CatalogTargets.RunBooked | tools/cmd/provision-kuma/main.go:164-317 | the report of a run, whatever fails in it, told target by target |
| Provision.SecondRunIsIdle | tools/cmd/provision-kuma/main.go:164-317 | a second run makes no create, update or delete call |
| Provision.RunIdleIff | tools/cmd/provision-kuma/main.go:164-317 | for any catalog, a run has nothing to do iff every target matches and every name is expected |
| Provision.SharedNameNeverSettles | tools/cmd/provision-kuma/main.go:175-192 | two services that share a name and want different addresses keep every run busy |
| Provision.ProvisioningReachesFixedPoint | tools/cmd/provision-kuma/main.go:319-393 | from any uniquely named monitors, for a catalog with distinct target names, one run without failed calls reaches a state that every further run leaves alone |
| SharedNames.CanSettleIff | tools/cmd/provision-kuma/main.go:175-303 | a catalog has a state of the server that no run changes iff targets that share a name do not contradict each other |
| SharedNames.SettledIsIdle | tools/cmd/provision-kuma/main.go:164-317 | in such a state no call is made |
| SharedNames.NamesStayUniqueIff | tools/cmd/provision-kuma/main.go:164-303 | a run without failed calls leaves unique names iff no two targets share a name that the server does not have yet |
| SharedNames.RunMakesProgress | tools/cmd/provision-kuma/main.go:164-317 | with compatible targets a run takes nothing back and gets at least one more target right |
| SharedNames.CompatibleCatalogSettles | tools/cmd/provision-kuma/main.go:164-317 | so repeated runs settle, no later than there are targets to get right |

## Left out

- Time zones, sub-second instants and calendar days across a change of clock: times are seconds, a retention day has 86400 of them.
- Floats: a text comes with the number it parses to, a value with its printed form; NaN and rounding are not modelled, and lower-casing and trimming cover ASCII only.
- Severity.Apply: the wording that classification adds to a message is not modelled.
- Collectors.Gather: unit, message and most evidence of an observation are not modelled, nor the collectors themselves and their panics.
- Rotation.StateFiles.Save: the dated history copy and its pruning come after the two state files and are not modelled; errors of a single step are a crash at that step.
- Diff.SeenStore.Compute: records are values in a map that is replaced, not shared heap objects; the program holds no second reference to a record across a call.
- MailExport.Exporter.Run: a failing account request is a list error on the first page; log output and outbox file names are not modelled.
- MailExport.Exporter.ProcessMail: sha256 is taken to be injective, a PDF is locked iff its password is not in the list, and rewriting a PDF with its password removed is not modelled.
- ExportProgress.BacklogStaysInWindow: mails without a usable date count as dated 0, as the program's zero time does; the server is assumed to list what it has inside the window asked for.
- JsonDocument.UnmarshalMarshal: numbers keep their spelling; that one beyond the precision of a float loses digits, or is respelled, when the program reads it is not modelled, nor is text that is not valid Unicode.
- JsonDocument.MarshalInjective: as for reading back, with numbers as they are spelled.
- ScheduleMerge.UserScripts.Run: file modes other than a failing change, and script names that path cleaning would change.
- ImportPlan.BuildPlan: the walk with its skipped directories; Unicode normalisation is a parameter, and paths are taken to be clean, as the walk yields them.
- Manifest.ReadManifest: number spellings other than decimal digits, which the writer never produces; characters stand for bytes, and a size is unbounded.
- Maintenance.InWindow: windows come parsed; the regular expression of the parser is not part of this model.
- KumaCache.Client.OnUpdate: the lists other than monitors, and the mutex, which makes each handler one step.
- KumaWait.SyncEmitWithUpdateEvent: an acknowledgement that arrives after the call has returned.
- SharedNames.CompatibleCatalogSettles: targets of one name but different kinds can both be satisfied only if the server keeps a hostname, port or URL that a request leaves out (`HTTP.MarshalJSON` sends no hostname or port); the model's server keeps them.
- Provision.Run: notification, maintenance windows, status pages and their fixed point; the server's treatment of fields that the program does not compare.
- Provision.RunConverges: a monitor that was created but could not be resumed stays paused; a run with such a failure is covered by `Provision.RunShows` only.
- Network, SSH, SQL and e-mail input and output, rendering of reports, the language model exchange and command-line parsing: inputs of the model, or left out as presentation.
