# Directory Monitor: verification model

Directory Monitor watches directories, turns file-system notifications into events, removes
duplicates, filters, counts, stores and reports them, and shows them on a web dashboard. This project
models the state and text machinery behind that in Dafny and proves what it promises. Every clock
reading is an explicit argument. Hash maps are traversed in any order. Glob matching, path prefixes and
the creation of operating system watches are parameters about which nothing is assumed.

`dafny verify dfyconfig.toml` checks the whole project.

## Modules

| module | what it holds |
|---|---|
| `Prometheus`, `Text`, `Numerals` | the printer of the Prometheus text exposition format (its "Text format details"), label escaping, substring replacement, numerals |
| `TimestampText` | RFC 3339 timestamps as text, and their order |
| `Sql` | a lexer and a reader for conditions: columns by name, comparisons, `LIKE`, `IN`, brackets, `AND` before `OR`, `?` bound left to right, three-valued logic |
| `WhereClause` | filters compiled to such text with positional parameters |
| `EventStore`, `StoreWorker` | rows, selection, pages, time buckets; the database worker as a class over a table of text rows |
| `Events`, `Sequences`, `Options` | the event record, mapping and filtering of sequences, optional values |
| `Dedup`, `EventFilter`, `Pipeline`, `Debounce` | deduplication in a time window, filters by watch root, the pipeline's loop and counters, batching |
| `PathKeys` | when two texts spell one path, as `PathBuf` compares them on Unix |
| `WatcherManager`, `PendingReload`, `ReloadGauge` | watchers and their reload, the pending flag and the watch list, concurrent reloads, edits and the gauge |
| `Counters`, `LabeledCounter` | labelled counters under every interleaving of threads, and as objects of one thread |
| `SlidingWindow` | sums in time buckets |
| `Utf8`, `Template` | UTF-8 (sections 3 and 4 of RFC 3629) and the template expander over bytes |
| `EmailLimiter` | batches of events and the limit on emails, for one task and for concurrent tasks |
| `Snapshot` | directory scans, their differences, and replaying them |

## Where the code is weaker than it looks

Each of these is proved, with the exact condition where there is one.

- The counter printer rewrites everything printed so far. The document is right if and only if no sample's
  bracketed labels stand in the part printed before it (`Prometheus.DocumentExact`). A help text that quotes a
  sample breaks it, and so can label sets of different sizes in one counter.
- `after` and `before` are documented as inclusive bounds of an ISO 8601 time. A bound that ends in `Z` drops
  the whole unit of its last digit as `after` and keeps it whole as `before`; the dashboard sends three digits
  and `Z` (`TimestampText.DashboardBound`). A bound with a signed offset is read as if it were UTC, so every row
  between its fields and its instant is misplaced (`TimestampText.OffsetBound`, `TimestampText.OffsetIsIgnored`).
- The offset of a page is a product of 64-bit numbers that is cast to a signed one. An offset within the
  listing shows the rows from there, a larger one below 2^63 nothing, and any other the first page
  (`EventStore.PageShows`, for every page number).
- The README of Directory Monitor and its pipeline tests describe filtering before deduplication; the
  pipeline deduplicates first. The model follows the pipeline, and the two orders deliver the same events
  (`Pipeline.DedupFirstIsFilterFirst`). When a reload replaces the filters they do so if and only if nothing that
  passes the new filters only arrives less than a window after an emission of its key, which the old filters
  dropped (`Dedup.FilterChange`, `Dedup.ChangeLosesRepeat`).
- A kept watcher keeps its operating system watch, so a changed `recursive` setting is reported as active
  without being in force (`WatcherManager.KeptWatchesKeepTheirMode`,
  `PendingReload.ReportedWithoutBeingInForce`).
- The manager compares paths, while the pending flag and the adding of a watch compare their texts. So `/w` and
  `/w/` can both be configured, are watched once, and keep the flag up after every reload
  (`PendingReload.PendingAfterReload`, `PendingReload.TwoSpellingsKeepTheFlagUp`). A path configured twice can
  also hide a watcher that is not configured (`PendingReload.DuplicateHidesAWatcher`).
- A failed reload can change the number of watchers without telling the gauge, for good
  (`ReloadGauge.FailureCanLeaveTheGaugeWrong`). It leaves a right gauge right in every order of the maps if and
  only if no watched path is obsolete and no new one can be watched, which can be seen before the reload
  (`ReloadGauge.FailureKeepsTheGaugeRight`).
- Watchers, filters and stored configuration agree, at any moment of any run, if and only if what was
  reloaded, stored (by a reload or by an edit on the dashboard) and set as filters last are the same watches, a
  failed reload counting for what it leaves in force (`ReloadGauge.AgreementExactly`). Two reloads at once can
  end with an old configuration stored, an edit during a reload can be overwritten in memory and kept in the
  file, and a hang-up signal never stores the configuration it applies.
- At start-up the first of several watches of a path wins, at a reload the last.
- With P tasks at once the email limit is exceeded by up to P - 1 in a minute, and an email that is given up
  is not counted at all (`EmailLimiter.LoadIsBounded`, `EmailLimiter.BoundIsReached`).

## Model

| member | source | states |
|---|---|---|
| Prometheus.ThreePassesAreOne | crates/dm-metrics/src/prometheus.rs:101-105 | the three successive replacements equal a one-pass escaper, for every text |
| Prometheus.EscapeRoundTrip | crates/dm-metrics/src/prometheus.rs:101-105 | unescaping inverts the label escaping |
| Prometheus.EscapeInjective | crates/dm-metrics/src/prometheus.rs:101-105 | no two label values escape alike |
| Prometheus.EscapedValue | crates/dm-metrics/src/prometheus.rs:101-105 | an escaped value has no raw newline and no quote outside an escape pair |
| Prometheus.LabelStrPrefixFree | crates/dm-metrics/src/prometheus.rs:30-34 | the bracketed label list is a prefix-free code of the labels |
| Prometheus.JoinLabelsIsLabelStr | crates/dm-metrics/src/prometheus.rs:30-34 | mapping and joining the labels writes the label list of the exposition format |
| Prometheus.LabelStrText | crates/dm-metrics/src/prometheus.rs:30-34 | the label list written out, label by label |
| Prometheus.InnerBrace | crates/dm-metrics/src/prometheus.rs:35-40 | past its opening brace a sample has too few free quotes left for another label list of its size |
| Prometheus.NoOccurrenceInSample | crates/dm-metrics/src/prometheus.rs:35-40 | the search text matches nowhere in a sample of other labels, nor inside its own sample |
| Prometheus.MatchesNewestLineOnly | crates/dm-metrics/src/prometheus.rs:35-40 | the global replacement matches exactly once, on the line just pushed, and prints that line |
| Prometheus.PushEntriesPrintsLines | crates/dm-metrics/src/prometheus.rs:26-42 | after any number of entries the loop has printed the header and one line for each |
| Prometheus.FormatCounter | crates/dm-metrics/src/prometheus.rs:11-46 | for every snapshot order, with one key list size and no brace in name or help, the output is the document the format asks for; for any label sets and help text it is so if and only if every sample's brackets are new when it is pushed |
| Prometheus.ExpositionText | crates/dm-metrics/src/prometheus.rs:11-46 | the document written out: header, the line of an empty counter, and each further sample |
| Prometheus.PushEntryExact | crates/dm-metrics/src/prometheus.rs:35-40 | one push is right if and only if its bracketed labels do not stand in the text yet |
| Prometheus.DocumentExact | crates/dm-metrics/src/prometheus.rs:26-42 | for any entries, after any number of them, the text is right if and only if no entry's brackets stand in the part before it; otherwise it is too long |
| Prometheus.HelpTextCounterexample | crates/dm-metrics/src/prometheus.rs:15-40 | a help text that quotes a sample is rewritten |
| Prometheus.MixedLabelCountCounterexample | crates/dm-metrics/src/prometheus.rs:26-42 | label sets of sizes two and one for which the second push rewrites the first line |
| Prometheus.LinesAreReadable | crates/dm-metrics/src/prometheus.rs:26-42 | the sample lines determine the snapshot: equal texts come from equal lists of labels and values |
| Prometheus.FormatWindowSummary | crates/dm-metrics/src/prometheus.rs:80-97 | the summary has the sample lines of a counter labelled by series, so they are readable too |
| TimestampText.FieldOrderIsTimeOrder | crates/dm-storage/src/worker.rs:415 | calendar order of the fields is order of the instants |
| TimestampText.SecondsCountFromEpoch | crates/dm-storage/src/worker.rs:528-557 | seconds count from the beginning of 1970, 86400 from each day of the Gregorian calendar to the next |
| TimestampText.TextOrderIsTimeOrder | crates/dm-storage/src/worker.rs:477 | byte order of stored timestamps is time order, whatever the widths of their fractions, and equal texts are equal times |
| TimestampText.TimestampRoundTrip | crates/dm-storage/src/shared.rs:25-32 | reading a stored timestamp gives back the time that was written |
| TimestampText.WrittenTime | crates/dm-storage/src/worker.rs:415 | two stored timestamps written out |
| TimestampText.DashboardBound | crates/dm-storage/src/shared.rs:80-87 | what a bound of up to nine fraction digits that ends in `Z` means for every row, to the nanosecond |
| TimestampText.AfterBoundIsNotInclusive | crates/dm-web/src/routes/events.rs:15-16 | a row of the very instant of an `after` bound that ends in `Z` is rejected, against the documentation |
| TimestampText.OffsetBound | crates/dm-storage/src/shared.rs:80-87 | what a bound of up to nine fraction digits and a signed offset means for every row: that of its fields as UTC, and for the same fields which digits and offsets come first |
| TimestampText.OffsetIsIgnored | crates/dm-web/src/routes/events.rs:15-16 | of the rows with other fields, `after` and `before` misplace exactly those between the fields and the instant of the bound |
| TimestampText.StoredFormIsInclusive | crates/dm-storage/src/worker.rs:477 | with `+00:00` and the digits `to_rfc3339` writes both bounds are inclusive |
| WhereClause.BuildWhereClause | crates/dm-storage/src/shared.rs:50-94 | the text, read as SQL behind `WHERE 1=1` with its parameters bound left to right, is true of a row exactly if the filter matches it, and asks for as many parameters as it is given |
| WhereClause.ClauseTokens | crates/dm-storage/src/shared.rs:50-94 | how every clause lexes: its columns, operators, brackets and marks |
| WhereClause.ClauseMeansFilter | crates/dm-storage/src/shared.rs:50-94 | reading the clause never gets stuck, leaves no parameter over, and agrees under three-valued logic with the direct reading of the six filters |
| WhereClause.ClauseMarks | crates/dm-storage/src/shared.rs:50-94 | one parameter for each `?` |
| WhereClause.QueryMarks | crates/dm-storage/src/worker.rs:469-479 | still one parameter for each `?` after ordering, limit and offset are appended |
| WhereClause.SearchIsSubstring | crates/dm-storage/src/shared.rs:72-78 | a search text without wildcards finds exactly the texts that contain it up to ASCII case |
| EventStore.TypeRoundTrip | crates/dm-core/src/event.rs:45-62 | every event type is read back from the text it is stored as |
| EventStore.RowRoundTrip | crates/dm-storage/src/shared.rs:11-47 | reading the row written for an event gives the event |
| EventStore.SelectedAreMatching | crates/dm-storage/src/worker.rs:458-517 | the rows the clause selects are the rows of the events the filter matches, in order |
| EventStore.BoundsAreTimes | crates/dm-storage/src/shared.rs:79-87 | bounds in the stored form bound the time, inclusively on both sides |
| EventStore.DashboardBoundsAreTimes | crates/dm-storage/src/shared.rs:79-87 | bounds that end in `Z` bound the time up to the unit of their last digit |
| EventStore.FilterMeans | crates/dm-storage/src/shared.rs:50-94 | what type names, root, search text, stored-form bounds and kind ask of an event, field by field |
| EventStore.TypesByName | crates/dm-core/src/event.rs:27-62 | which type name finds which events, and that no other name finds any |
| EventStore.ArrangementFollowsTime | crates/dm-storage/src/worker.rs:477 | whatever the engine does with ties, ordering rows by text orders their events by time |
| EventStore.QueryAnswers | crates/dm-storage/src/worker.rs:458-492 | a query on text rows lists exactly the matching events in that order |
| EventStore.SortingArranges | crates/dm-storage/src/worker.rs:477 | some fixed order of ties is newest first on all tables, so what is assumed of the engine's order can be met |
| EventStore.PagesCoverListing | crates/dm-web/src/routes/events.rs:63-99 | pages 1 to `total_pages`, concatenated, are the listing |
| EventStore.PageShows | crates/dm-web/src/routes/events.rs:63-93 | for every page of a listing with rows: which rows it shows, that it is empty if and only if its wrapped offset is beyond the listing and below 2^63, and when it is the first page again |
| EventStore.LaterPagesAreEmpty | crates/dm-web/src/routes/events.rs:63-99 | pages after the last are empty as long as their offset is below 2^63 |
| EventStore.FewerPagesMissRows | crates/dm-web/src/routes/events.rs:95-99 | `total_pages` is the least number of pages that covers the listing |
| EventStore.SeriesCounts | crates/dm-storage/src/worker.rs:528-557 | each bucket of the time series counts the events at or after the bound that fall in it |
| EventStore.SeriesShape | crates/dm-storage/src/worker.rs:528-557 | buckets come in ascending order, each once, none empty |
| StoreWorker.SelectRows | crates/dm-storage/src/worker.rs:469-479 | scanning the table with the compiled clause selects the matching rows |
| StoreWorker.CutoffIsTime | crates/dm-storage/src/worker.rs:519-526 | comparing texts with the cutoff's text keeps exactly the events at or after the cutoff |
| StoreWorker.DeleteBefore | crates/dm-storage/src/worker.rs:519-526 | the statement keeps the rows not before the cutoff and counts the others |
| StoreWorker.RowSeriesIsSeries | crates/dm-storage/src/worker.rs:528-557 | grouping text rows by their text gives the series of the events by time |
| StoreWorker.Table.DoInsert | crates/dm-storage/src/worker.rs:409-431 | an event is appended unless its id is stored already |
| StoreWorker.Table.DoInsertBatch | crates/dm-storage/src/worker.rs:433-456 | all of a batch is stored or none of it, and all exactly if no id repeats |
| StoreWorker.Table.DoQuery | crates/dm-storage/src/worker.rs:458-492 | the answer is the requested stretch of the matching events in order of time, and no row is unreadable |
| StoreWorker.Table.DoCountFiltered | crates/dm-storage/src/worker.rs:499-517 | the count is the number of matching events |
| StoreWorker.Table.DoPurgeBefore | crates/dm-storage/src/worker.rs:519-526 | exactly the events strictly older than the cutoff are deleted, and their number is reported |
| StoreWorker.Table.DoTimeSeries | crates/dm-storage/src/worker.rs:528-557 | the points are the series of the stored events |
| StoreWorker.Table.RunWorker | crates/dm-storage/src/worker.rs:241-325 | on text rows each response is right for the list of events the commands before it have left: what is stored, which stretch of the matching events newest first is listed, how many are stored or match, what is purged, and how many fall in each bucket |
| StoreWorker.AnswersAreMatching | crates/dm-storage/src/worker.rs:458-517 | query, count and filter agree: same events, same number, newest first |
| StoreWorker.PurgeIsExact | crates/dm-storage/src/worker.rs:519-526 | kept and deleted make up the table, and what is kept is what is not older |
| StoreWorker.RunConserves | crates/dm-storage/src/worker.rs:241-325 | over every run, what is stored and what was purged make up what was there and what was inserted, and ids stay unique |
| StoreWorker.EventsPage | crates/dm-web/src/routes/events.rs:25-99 | total, page and number of pages describe one listing: the stretch a page of at least 1 and a size clamped to 1 to 200 ask for, by default the first 50 |
| Dedup.EventDeduplicator.Process | crates/dm-processor/src/dedup.rs:34-63 | the new map and whether the event passes, for every map, event and clock reading; the branch for an entry outside its window is dead |
| Dedup.EventDeduplicator.ProcessBatch | crates/dm-processor/src/dedup.rs:66-68 | a batch is a run of single events |
| Dedup.EventDeduplicator.Cleanup | crates/dm-processor/src/dedup.rs:71-74 | exactly the entries younger than the window stay |
| Dedup.SeenInvariant | crates/dm-processor/src/dedup.rs:34-74 | after every run the map holds exactly the emissions within the window, each with its own time and event |
| Dedup.SuppressedIffRepeats | crates/dm-processor/src/dedup.rs:34-63 | an event is suppressed if and only if its key was emitted strictly less than a window earlier |
| Dedup.EmissionsAreSpaced | crates/dm-processor/src/dedup.rs:34-63 | two emissions of one key are at least a window apart, whatever was suppressed between them |
| Dedup.OutsideWindowIsUnreachable | crates/dm-processor/src/dedup.rs:43-57 | an entry that the cleanup leaves always suppresses the event, so that branch is never taken in any step |
| Dedup.FilterCommutes | crates/dm-cli/src/pipeline.rs:113-140 | deduplicating and then filtering by key lets the same arrivals through as filtering first |
| Dedup.FilteredMapIsRestriction | crates/dm-processor/src/dedup.rs:34-74 | the filtered run's map is the full run's restricted to the keys that pass |
| Dedup.FilterChange | crates/dm-web/src/routes/watchers.rs:51-62 | when the filters change and the map stays, the two orders let the same arrivals through if and only if no later arrival that passes the new filters only comes less than a window after an emission of its key |
| Dedup.ChangeLosesRepeat | crates/dm-cli/src/pipeline.rs:113-140 | a repeat of what the old filters dropped is suppressed, although the new filters would deliver it |
| EventFilter.FirstCoveringWatchDecides | crates/dm-processor/src/filter.rs:82-113 | an event passes if and only if the first watch whose root covers its path lists its type or none, has no exclude glob that takes the path or the file name, and has an include glob that takes one of them or no list; without a covering watch it passes |
| EventFilter.VerdictIsByKey | crates/dm-processor/src/filter.rs:82-113 | the verdict depends on path and event type only |
| Pipeline.HandleEvent | crates/dm-cli/src/pipeline.rs:110-150 | an event is delivered exactly if no event of its path and type was let through less than a window before and the first covering watch wants it; which of the three counters rises |
| Pipeline.ProcessWatchEvent | crates/dm-cli/src/pipeline.rs:82-150 | deliveries, map and each counter after a message; the three counters together rise by its number of events, and the flush counter by one for a batch |
| Pipeline.NothingLostOrCountedTwice | crates/dm-cli/src/pipeline.rs:110-150 | every event is delivered, dropped or deduplicated, exactly once |
| Pipeline.DeliveredAreEmissionsThatPass | crates/dm-cli/src/pipeline.rs:110-150 | what is delivered are the deduplicator's emissions that pass, in order |
| Pipeline.DeliveredExactly | crates/dm-cli/src/pipeline.rs:110-150 | over every run with a steady clock the deliveries are, in order, the arrivals that repeat no emission of their key within the window and are wanted by the first covering watch |
| Pipeline.DedupFirstIsFilterFirst | crates/dm-cli/src/pipeline.rs:110-140 | the pipeline delivers exactly what filtering before deduplicating delivers, on every stream with a steady clock |
| Pipeline.SameAcrossReload | crates/dm-cli/src/pipeline.rs:110-140 | under that condition the pipeline delivers the same events as filtering first, across the change |
| Debounce.DebounceLoop | crates/dm-watcher/src/watcher.rs:116-149 | the messages sent and the events held after any inputs, with nothing done after a disconnection |
| Debounce.NothingIsLostBeforeTheEnd | crates/dm-watcher/src/watcher.rs:121-147 | batches sent and then pending events are the converted inputs in order, and no batch is empty |
| Debounce.PendingIsSinceTimeout | crates/dm-watcher/src/watcher.rs:134-142 | only a time-out ends a batch, and each one does |
| Debounce.ErrorsArePassedOn | crates/dm-watcher/src/watcher.rs:121-147 | every watcher error up to a disconnection is passed on at once, in order |
| Debounce.BatchingIsInvisible | crates/dm-cli/src/pipeline.rs:94-150 | however the events are batched, they are processed as one stream |
| Debounce.EveryNotificationIsAccountedFor | crates/dm-watcher/src/watcher.rs:121-147 | every converted notification is delivered, dropped, deduplicated or pending, exactly once |
| PathKeys.NormalForm | crates/dm-watcher/src/manager.rs:129-140 | two texts are one key of the maps if and only if they have one normal form, which is itself a spelling of the path |
| PathKeys.SpellIsPath | crates/dm-watcher/src/manager.rs:49-56 | every list of components is the key of its spelling, so different components are different paths |
| PathKeys.SpellingsOfOnePath | crates/dm-watcher/src/manager.rs:49-56 | a slash at the end, a doubled slash and a dot between slashes make no difference |
| WatcherManager.Manager.AddWatcher | crates/dm-watcher/src/manager.rs:45-83 | a watcher is added exactly if its path is free and can be watched, under the next id; otherwise nothing changes |
| WatcherManager.Manager.RemoveWatcher | crates/dm-watcher/src/manager.rs:86-96 | exactly the watcher with the id is removed, and its path reported |
| WatcherManager.Manager.Reload | crates/dm-watcher/src/manager.rs:123-192 | succeeds exactly if every new path can be watched; then paths and settings are the new configuration's and surviving watchers keep their ids; a failure never loses a path of both configurations and adds only paths that can be watched |
| WatcherManager.FailedReloadKeepsCount | crates/dm-watcher/src/manager.rs:143-173 | a reload that fails keeps the number of watchers in every order of the maps if and only if no watched path is obsolete and no new one can be watched |
| WatcherManager.Manager.RemoveObsolete | crates/dm-watcher/src/manager.rs:143-150 | exactly the watchers outside the new configuration go, in any order |
| WatcherManager.Manager.AddNew | crates/dm-watcher/src/manager.rs:153-173 | new watchers get fresh ids; the first that cannot be created ends the loop and leaves some path unwatched |
| WatcherManager.Manager.UpdateKept | crates/dm-watcher/src/manager.rs:176-184 | paths in both configurations take the new settings and nothing else changes |
| WatcherManager.ViewIsUnique | crates/dm-watcher/src/manager.rs:23-24 | the watchers by id determine the watchers by path |
| WatcherManager.TrackedWatchersAreValid | crates/dm-watcher/src/manager.rs:123-192 | the invariant every operation keeps: keys are entry ids, ids are below the next one, paths are unique |
| WatcherManager.ViewSize | crates/dm-watcher/src/manager.rs:116-119 | counting by id and counting by path agree |
| WatcherManager.NewPathsAreLast | crates/dm-watcher/src/manager.rs:136-140 | collecting the configuration by path keeps the last watch of each path |
| WatcherManager.ReloadPartitions | crates/dm-watcher/src/manager.rs:123-192 | removed and kept partition the old paths, added and kept the new ones, and the number of watchers moves by their difference |
| WatcherManager.ReloadDependsOnConfigOnly | crates/dm-watcher/src/manager.rs:123-192 | whatever came before, the settings after a successful reload are the new configuration's |
| WatcherManager.KeptWatchesKeepTheirMode | crates/dm-watcher/src/manager.rs:176-184 | modes and settings agree after a reload if and only if no kept path changes `recursive` |
| PendingReload.ListWatchers | crates/dm-watcher/src/manager.rs:99-113 | every watcher is reported once, in some order |
| PendingReload.ComputePendingReload | crates/dm-web/src/routes/config.rs:31-57 | the flag is down exactly if the numbers agree and the first active watcher with the text of each watch has its `recursive`, include list, exclude list and event types |
| PendingReload.PathCount | crates/dm-web/src/routes/config.rs:33-36 | a configuration has as many paths as watches if and only if no path repeats, in whatever spelling |
| PendingReload.PendingMeansOutOfSync | crates/dm-web/src/routes/config.rs:31-57 | with distinct texts the flag is down if and only if watchers and configuration agree in paths, spelling and each of the four settings; in agreement it is down if and only if no path repeats, in whatever spelling |
| PendingReload.PendingAfterReload | crates/dm-web/src/routes/config.rs:31-57 | after a successful reload the flag is down if and only if no path is configured twice, in whatever spelling |
| PendingReload.TwoSpellingsKeepTheFlagUp | crates/dm-web/src/routes/config.rs:161-169 | a path and the same with a slash behind it are distinct to the adding of watches, become one watcher, and keep the flag up after every reload |
| PendingReload.EditsRaiseTheFlag | crates/dm-web/src/routes/config.rs:31-57 | from agreement, any edited list leaves the flag down if and only if it is as long as there were paths and every watch of it was there before; with distinct texts, if and only if the same watches are configured |
| PendingReload.DuplicateHidesAWatcher | crates/dm-web/src/routes/config.rs:31-57 | with a repeated path the flag can be down beside a watcher that is not configured |
| PendingReload.ReportedWithoutBeingInForce | crates/dm-watcher/src/manager.rs:176-184 | a successful reload after which the changed mode is reported, the flag is down and the old mode is in force |
| PendingReload.WatchList.Add | crates/dm-web/src/routes/config.rs:144-234 | for any stored list: which requests are refused, that one watch is appended with each given field and the defaults for the others, that distinct texts stay distinct, and that distinct paths do if and only if the new one is not there in another spelling; a failed save keeps the edit in memory |
| PendingReload.WatchList.Update | crates/dm-web/src/routes/config.rs:80-141 | for any stored list: one watch takes each given field, keeps each absent one and its path, and no other changes |
| PendingReload.WatchList.Delete | crates/dm-web/src/routes/config.rs:237-271 | for any stored list: one watch is removed and the others keep their order |
| ReloadGauge.AddInitialWatches | crates/dm-cli/src/runner.rs:101-124 | the gauge starts at the number of watchers; every path that exists and can be watched as spelled is, with the settings of its first such watch |
| ReloadGauge.Server.ReloadFromDashboard | crates/dm-web/src/routes/watchers.rs:28-93 | undisturbed, a successful reload leaves watchers, filters and stored configuration at the loaded one and the gauge as right as it was; a failed one changes none of the three variables, and leaves the gauge as right as it was if it is harmless |
| ReloadGauge.Server.ReloadOnHangup | crates/dm-cli/src/runner.rs:243-286 | the same for the signal, except that the stored configuration stays |
| ReloadGauge.GaugeStep | crates/dm-web/src/routes/watchers.rs:44-91 | every step of a reload, successful or not, keeps the balance of gauge, unreported changes and watchers |
| ReloadGauge.GaugeBalances | crates/dm-cli/src/runner.rs:243-269 | over every interleaving of dashboard and hang-up reloads, gauge, pending net changes and what failures left unreported make up the watchers |
| ReloadGauge.GaugeIsRightAtRest | crates/dm-web/src/routes/watchers.rs:66-70 | at rest the gauge is right if every reload that failed was harmless, so always without failed reloads |
| ReloadGauge.FailureKeepsTheGaugeRight | crates/dm-web/src/routes/watchers.rs:85-91 | from a right gauge at rest, a failing reload leaves it right in every order of the maps if and only if nothing watched is obsolete and nothing new can be watched |
| ReloadGauge.FailureCanLeaveTheGaugeWrong | crates/dm-web/src/routes/watchers.rs:85-91 | a reachable state at rest in which the gauge shows one watcher and there is none |
| ReloadGauge.VariablesAreLastSet | crates/dm-web/src/routes/watchers.rs:43-64 | the stored configuration is that of the last reload or edit to store one, the filters those of the last reload that set them, in every interleaving |
| ReloadGauge.ViewIsInForce | crates/dm-web/src/routes/watchers.rs:44-45 | the settings in force follow from the history of reloads, successful and failed |
| ReloadGauge.AgreementExactly | crates/dm-web/src/routes/watchers.rs:43-64 | at any moment of any run of reloads and edits, watchers, filters and stored configuration agree if and only if what was reloaded, stored and set as filters last are the same watches |
| ReloadGauge.SequentialReloadsSettle | crates/dm-cli/src/runner.rs:243-269 | for reloads one at a time, with edits at any moment, everything agrees at rest if and only if the last reload loaded what is stored, so after a dashboard reload unless the stored configuration was edited after it was set |
| ReloadGauge.HangupsKeepTheStoredConfig | crates/dm-cli/src/runner.rs:243-269 | without edits, reloads by signal never change the stored configuration |
| ReloadGauge.EditsEndAgreement | crates/dm-web/src/routes/config.rs:88-120 | where everything agrees, an edit ends the agreement unless it changes nothing |
| ReloadGauge.EditsCanBeOverwritten | crates/dm-web/src/routes/config.rs:237-258 | an edit between a reload's reading of the file and its storing is gone from watchers, filters and stored configuration, and is in the file |
| ReloadGauge.ConcurrentReloadsCanEndApart | crates/dm-web/src/routes/watchers.rs:43-64 | two dashboard reloads at once can come to rest with the old configuration stored beside new watches and filters |
| Counters.ConsistentStep | crates/dm-metrics/src/counter.rs:91-114 | no step replaces or drops a counter, creates a second one for the same labels, or leaves a thread with a stale one |
| Counters.RunsAreConsistent | crates/dm-metrics/src/counter.rs:91-114 | under every interleaving at most one counter is ever created for each label set, and every handle is the one in the map |
| Counters.NoIncrementIsLost | crates/dm-metrics/src/counter.rs:117-119 | any group of counters adds up to the records with such labels that have been counted |
| Counters.CounterShowsItsRecords | crates/dm-metrics/src/counter.rs:117-119 | each single counter shows the number of records with its labels |
| Counters.CountersByName | crates/dm-metrics/src/lib.rs:107-118 | under every interleaving the counter of a type counts the records of that type, that of a root those below it, and the joint one both |
| Counters.TotalCountsRecordsAndFlushes | crates/dm-metrics/src/lib.rs:107-124 | the total counts records and flushed amounts, and the flush counter the flushes |
| Counters.TotalIsFamilyPlusBetween | crates/dm-metrics/src/lib.rs:107-118 | the total is the sum of each family, plus the threads between the two, plus what flushes added |
| Counters.TypeMarginal | crates/dm-metrics/src/lib.rs:107-118 | the joint counters of a type add up to its own counter, except for threads between the two |
| Counters.RootMarginal | crates/dm-metrics/src/lib.rs:107-118 | the same by watch root |
| Counters.CountersAgreeAtRest | crates/dm-metrics/src/lib.rs:107-118 | once no thread is recording, total, families and marginals agree exactly |
| LabeledCounter.Counter.Inc | crates/dm-metrics/src/counter.rs:117-119 | one counter rises by one, from nothing if it is new, and every other keeps its value |
| LabeledCounter.Counter.WithLabels | crates/dm-metrics/src/counter.rs:91-114 | the counter in the map is returned, a new one starts at zero, and no two label sets share an object |
| LabeledCounter.Counter.Add | crates/dm-metrics/src/counter.rs:122-124 | the same for any amount |
| SlidingWindow.SlidingWindow.RecordAt | crates/dm-metrics/src/window.rs:85-112 | the buckets are those the list of all records leads to |
| SlidingWindow.SlidingWindow.TrimFront | crates/dm-metrics/src/window.rs:103-112 | from the front exactly the buckets are dropped that started more than the length of the window before the clock reading |
| SlidingWindow.BucketTimeIsBucket | crates/dm-metrics/src/window.rs:72-77 | the window and the store's query compute the same bucket, also before the epoch |
| SlidingWindow.BucketsAreExact | crates/dm-metrics/src/window.rs:85-112 | with a steady clock the window holds a bucket if and only if it was recorded in and started no longer before the last reading than all buckets last, in order, each with the sum of its values |
| SlidingWindow.WindowIsBounded | crates/dm-metrics/src/window.rs:85-112 | the window never holds more than one bucket above the configured number |
| SlidingWindow.WindowSum | crates/dm-metrics/src/window.rs:126-128 | the sum is that of everything recorded in such buckets |
| SlidingWindow.WindowIsTimeSeries | crates/dm-web/src/routes/metrics.rs:24-41 | on the same events, counted within a delay after they were stamped, every bucket from the asked time and the cutoff on counts the same as the series, but for events stamped within the delay before its start or its end; the same exactly without delay |
| SlidingWindow.LabeledWindow.Record | crates/dm-metrics/src/window.rs:170-176 | every name keeps a window of its own records only |
| SlidingWindow.EachNameIsSteady | crates/dm-metrics/src/window.rs:170-176 | a steady clock for all records is steady for each name, so the above holds of each window |
| Utf8.CutAtBoundary | crates/dm-core/src/event.rs:267-285 | cutting a well-formed text where the one-byte test allows gives two well-formed texts |
| Utf8.SliceIsWellFormed | crates/dm-core/src/event.rs:267-285 | so does every slice between two boundaries |
| Template.FormatWith | crates/dm-core/src/event.rs:258-292 | the scan yields the template's meaning; every slice ends at character boundaries, the result is well-formed, and the branch for a `%` found at once is dead |
| Template.ExpandMeans | crates/dm-core/src/event.rs:258-292 | a known key between two `%` is replaced by its value and reading goes on behind; otherwise the `%` stays and reading goes on right after it |
| Template.UnparseTokens | crates/dm-core/src/event.rs:258-292 | the tokens of a template spell the template |
| Template.TokensAreLeftmost | crates/dm-core/src/event.rs:265-277 | references are to known keys, and no `%` kept literally could have started one |
| Template.TokensAreUnique | crates/dm-core/src/event.rs:265-277 | there is only one such reading of a template |
| Template.IdentityResolver | crates/dm-core/src/event.rs:258-292 | a resolver that gives `%key%` for each of its keys gives back the template |
| Template.ValuesAreNotScanned | crates/dm-core/src/event.rs:269-273 | what is replaced depends on the known keys only, never on their values |
| EmailLimiter.EmailNotifier.CheckRateLimit | crates/dm-notify/src/email.rs:163-178 | sixty seconds after the last reset the limiter begins anew and passes if the limit is at least one; before that it changes nothing and passes below the limit |
| EmailLimiter.EmailNotifier.Flush | crates/dm-notify/src/email.rs:64-70 | all pending events are taken whatever becomes of them; when an email is refused, and that only a sent one is counted |
| EmailLimiter.EmailNotifier.Notify | crates/dm-notify/src/email.rs:40-61 | taken and pending events are the old ones and the new one in order; a full batch is taken, and no smaller one |
| EmailLimiter.AttemptIsSteps | crates/dm-notify/src/email.rs:72-161 | what one task does for an email is its check and then the email counted or given up, as the concurrent steps have it |
| EmailLimiter.LoadStep | crates/dm-notify/src/email.rs:163-178 | only a passed check adds to emails counted or under way, and never beyond the bound |
| EmailLimiter.LoadIsBounded | crates/dm-notify/src/email.rs:158-178 | with P tasks at most max + P - 1 emails are counted or under way in a minute |
| EmailLimiter.BoundIsReached | crates/dm-notify/src/email.rs:158-178 | that bound is reached for every max and P of at least 1, with and without batches |
| EmailLimiter.PassedInSixtySeconds | crates/dm-notify/src/email.rs:163-178 | in any half-open sixty seconds at most 2 * (max + P - 1) checks pass besides emails given up: twice the limit for one task |
| EmailLimiter.LimitedExactly | crates/dm-notify/src/email.rs:163-178 | in every run a check passes if and only if the limit is at least one and sixty seconds have gone by since the newest reset, or fewer emails than the limit have been counted since |
| EmailLimiter.LimiterIsHistory | crates/dm-notify/src/email.rs:114-178 | the limiter holds the reading of the newest reset and the emails counted since |
| EmailLimiter.PassesAgain | crates/dm-notify/src/email.rs:166-169 | sixty seconds after the start and after every earlier check a check passes, whatever was sent |
| EmailLimiter.DrainedInOrder | crates/dm-notify/src/email.rs:49-70 | drained batches and then pending events are the pushed ones in order; an event starts a flush exactly if it fills the batch; with no task at work less than a batch is pending |
| EmailLimiter.BatchesAreAccountedFor | crates/dm-notify/src/email.rs:64-112 | every batch taken up is sent, given up or in a task's hands, and is lost only if its check fails or its email is given up |
| Snapshot.ScanDirectory | crates/dm-watcher/src/snapshot.rs:43-67 | succeeds exactly if everything it has to read can be read, and then adds every entry at its path, nested ones if recursive, and nothing else |
| Snapshot.AccessibleMeans | crates/dm-watcher/src/snapshot.rs:43-67 | what has to be readable: the directory, every entry that is come to, and each directory among them if it is entered |
| Snapshot.TakeSnapshot | crates/dm-watcher/src/snapshot.rs:29-41 | the snapshot maps a path to metadata exactly if the path leads to an entry of the tree |
| Snapshot.Diff | crates/dm-watcher/src/snapshot.rs:71-115 | one event of the right kind for each path that was created, modified or deleted, and no other, in any order of the maps |
| Snapshot.ReplayLeadsToNewer | crates/dm-watcher/src/snapshot.rs:71-115 | replaying the difference on the older snapshot gives the newer one's paths, times and sizes; it gives the newer snapshot if and only if no path changed only between file and directory |
| Snapshot.EmptyDiffMeansSame | crates/dm-watcher/src/snapshot.rs:84-99 | there are no events if and only if paths, times and sizes agree |
| Snapshot.SwapExchanges | crates/dm-watcher/src/snapshot.rs:71-115 | comparing the other way round exchanges creations and deletions and keeps modifications |

## Left out

- StoreWorker.Table.DoTimeSeries: seconds are taken by rounding down; SQLite rounds a fraction to the millisecond first, so a row in the last half millisecond of a second may be counted in the next one. Bucket widths are positive.
- EventStore.TypeRoundTrip: of the spellings the parser accepts only the canonical ones are modelled, since stored rows hold no others.
- TimestampText.OffsetBound: bounds of other shapes, such as a date alone, a time without seconds or ten and more fraction digits, are compared as texts by the store all the same; what they mean is not stated.
- TimestampText.TextOrderIsTimeOrder: for years of four digits and without leap seconds.
- Template.FormatWith: for any resolver whose values are well-formed; the nine keys of an event and their values are not written out.
- Numbers are unbounded integers, except in the casts of limit and offset. Counters do not wrap around.
- PathKeys.NormalForm: for paths of Unix; drive letters and backslashes are not part of this model. Paths are displayed without loss.
- Globs: glob sets and the test for a path prefix are uninterpreted.
- The database engine: rows are a list with unique ids, a transaction is all or nothing, and the order of rows with equal timestamps is any fixed one (`EventStore.SortingArranges` shows there is one). Pragmas, migration and the parsing of identifiers are not part of this model.
- Resetting a counter and clearing a window: single assignments that nothing in the monitor calls.
- SQL outside the conditions on one table: conversions between texts and integers, `NOT`, arithmetic and functions are not read.
- Readers that load the counters of a family while threads record see each counter at another moment; nothing is claimed about such a snapshot as a whole.
- A disconnected debounce loop forgets what is pending; the model states what that is and claims no more.
- What an edit on the dashboard may do to the stored list is stated by the methods of `PendingReload.WatchList`; among reloads (`ReloadGauge.Step`) an edit may store any list.
- An email to several recipients that fails for one of them counts as given up, although earlier recipients may have received it.
- The conversion of raw notifications to events, event classification, gauges printed one by one, chart data and the size of the database file: case tables and plain formatting.
- Operating system watching, channels and their lag, web sockets, signals, the Windows service, authentication, configuration files, command line, logging, SMTP, syslog and scripts.
