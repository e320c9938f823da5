# Webhook catcher: monitoring engine and protocols

A model of the parts of the webhook catcher that keep state, and proofs about them.

The service records every call of a webhook. The in-memory store appends each observation to a log and keeps two maps of
per-minute counters beside it; queries fold over the log into a summary, a timeseries, a breakdown, inbox health and a
live snapshot, and retention trims log and maps by different tests. Around the store stand a broker of server-sent
events, a rate limiter, a cache of responses by idempotency key, and an encoder of ULIDs.

`dafny verify dfyconfig.toml` checks the whole project.

## How it is built

- Operations that change state are methods of classes with the fields of the original (`MemoryStore.Store`,
  `Services.Services`, `Sse.SseBroker`, `Idempotency.Cache`, `RateLimiter.Limiter`). Each is proved against a function or
  relation on values that describes its whole effect; the lemmas are about those. What a client is told is stated once
  more in plain terms, with counts, days and bounds written out (`Summaries.Summarises`, `Breakdowns.IsTopOf`,
  `InboxStats.IsReport`, `Lifecycle.IsKept`, `Pages.InTimeOrder`, `MonitoringInputs.SelectedIff`).
- What interleaves (`Lifecycle`, `SseRuns`, `LiveStream`) is a state machine whose steps are single critical sections or
  channel operations, and the theorems are about all its runs. The broker's step functions are the ones its methods are
  proved against.
- Time is an integer of nanoseconds since year 1, with 0 for Go's zero time. Everything is UTC, so a day has 24 hours.
  RFC 3339 text (section 5.6 of RFC 3339) is printed and parsed concretely, because retention reads the minutes of its
  counters back from their keys.
- Averages, rates and quantiles are exact: reals, and the rationals 19/20 and 99/100.
- `sort.Slice` is not stable and maps are walked in any order: sorting is specified by what it promises, map loops pick
  any remaining key, and list contents are claimed to be unique only where the comparison tells the elements apart.

## What the proofs found

- Counters and log disagree after a retention run whose cutoff falls inside a minute with later events: the counters of
  that minute go, the later events stay (`CounterRuns.StrayEventExample`). Every counter is still exact about the calls
  it counts (`CounterRuns.CountersAreCounted`), and over every run log and counters agree everywhere exactly when no
  call that is still logged was straddled by a later cutoff (`CounterRuns.RunAgreesIff`,
  `Lifecycle.ServiceKeepsCounters`). While cutoffs only rise, the latest retention alone decides
  (`CounterRuns.LatestCutDecides`); overlapping retention calls can break that order, because the clock is read before
  the lock (`CounterRuns.OlderCutoffDoesNotHeal`).
- A live stream with an explicit `to`, or with `from` but no `to`, can lose events between the end of its window and its
  subscription (`LiveStream.WindowEndingEarlyLeavesGap`); an open-ended one cannot (`LiveStream.NoGap`). A stream drops a message
  exactly when one is sent while eight are unread (`LiveStreamHandler.NothingDroppedIff`).
- A subscriber that leaves between a publisher's copy and its send makes the send panic, and the subscribers after it in
  the copied list lose that message; nothing else loses one except a full buffer (`SseRuns.SendPanicsIff`,
  `SseRuns.PanicSkipsOthers`, `SseRuns.OfferedIffNoneMet`).
- Any interval of m minutes admits at most (m+1)*limit-1 calls, one fewer than two full windows suggest, and that bound
  is reached (`RateLimiter.SlidingIntervalBound`, `RateLimiter.SlidingIntervalBoundIsAttained`).
- Informational and redirect statuses are filed as 5xx and count as errors (`MonitoringInputs.ObservationShowsCall`).
- A capture whose inbox is deleted between its lookup and its store is stored all the same
  (`Lifecycle.DeletedWhileCapturing`). When a request is stored its inbox still takes requests exactly when, since the
  capture's lookup, nobody deleted it and the last status set on it, if any, is not disabled
  (`Lifecycle.CaptureTakenIff`).
- Very large page numbers wrap the offset. Some make the program panic (`Pages.OffsetCanWrap`), others list rows where
  the page is past the last (`Pages.LargePageShowsFirstRows`); `Pages.PageOutcome` says exactly which do what.

## Model

| member | source | states |
|---|---|---|
| MemoryStore.Store.RecordHookObservation | internal/repository/memory/monitoring.go:42-97 | a missing observation changes nothing; any other is appended to the log and changes one rollup and six dimension counters, as `Recorded` says, whatever order the dimension map is walked in |
| MemoryStore.Store.BumpRollup | internal/repository/memory/monitoring.go:54-81 | the rollup of the observation's minute and inbox, or an empty one, grows by the observation in every field, and no other rollup changes |
| MemoryStore.Store.BumpDimensions | internal/repository/memory/monitoring.go:83-94 | the six counters of the observation go up by one and no other counter changes |
| MemoryStore.BumpKeys | internal/repository/memory/monitoring.go:91-94 | walking the dimensions in any order bumps each of their keys once, because the keys differ |
| MemoryStore.AccumulateMonitoringAggregate | internal/repository/memory/monitoring.go:385-404 | the aggregate after the steps of the code is the fold step `Add` on which all lemmas about aggregates rest |
| Histogram.CountLatency | internal/repository/memory/monitoring.go:399-403 | the loop over the nine bounds adds one to exactly the slots whose bound the latency does not exceed |
| Rollups.RollupKeyInjective | internal/repository/memory/monitoring.go:419-421 | two rollup keys of whole minutes before year 10000 are equal if and only if minute and inbox are |
| Rollups.DimensionKeyInjective | internal/repository/memory/monitoring.go:423-425 | a dimension key determines minute, inbox, dimension and value, even when the value contains the separator, if the inbox ID does not |
| Rollups.DimensionKeyCollides | internal/repository/memory/monitoring.go:423-425 | the condition on inbox IDs is needed: with the separator in an inbox ID, which the service never produces, two counters would share a key |
| Rollups.DimensionKeysDistinct | internal/repository/memory/monitoring.go:83-94 | one observation bumps six different keys, with no condition on its inbox ID |
| Rollups.StaleKeys | internal/repository/memory/store.go:247-266 | the minute that retention reads back from the first piece of a key is the one printed into it, so a counter is dropped exactly when its minute lies before the cutoff |
| Rollups.LateKeysAlwaysStale | internal/repository/memory/store.go:252-255 | the minute of a rollup or dimension counter of year 10000 or later never parses, so any retention run drops the counter |
| Time.ParsePrinted | internal/repository/memory/store.go:252-253 | reading back a printed instant gives its whole second up to the end of year 9999 and fails after it |
| Time.ParseExample | internal/repository/memory/monitoring.go:420 | the form of the printed minute, by the example of a leap day |
| Time.MonthLengths | internal/repository/memory/monitoring.go:420 | the months of the calendar behind it have their lengths, and days are counted from the first of year 1 |
| Time.YearLength | internal/repository/memory/monitoring.go:420 | so have the years: 366 days when divisible by 4 but not by 100, or by 400, and 365 otherwise |
| Time.PrintedHasNoBar | internal/repository/memory/monitoring.go:419-425 | a printed instant never contains the separator of the keys |
| Time.PrintInjective | internal/repository/memory/monitoring.go:419-425 | different whole seconds before year 10000 print differently |
| Rollups.RecordKeepsConsistent | internal/repository/memory/monitoring.go:42-97 | recording keeps both counter maps equal to the log in every field from the watermark on, and no larger than it below |
| Rollups.RetainKeepsConsistent | internal/repository/memory/store.go:239-266 | retention raises the watermark to its cutoff at most and keeps the agreement above and the bound below it |
| CounterRuns.RunKeepsConsistent | internal/repository/memory/monitoring.go:42-97 | over every run of recording and retention, every rollup and dimension counter at or above the largest cutoff so far equals the fold of the logged events, and below it never exceeds the fold |
| Rollups.AlignedRetentionRestores | internal/repository/memory/store.go:239-266 | a cutoff on a whole minute at or above the watermark makes log and counters agree everywhere again |
| Rollups.RetainKeepsCounted | internal/repository/memory/store.go:247-266 | retention leaves the counters equal to the folds of the calls they counted, without those whose minute begins before the cutoff |
| CounterRuns.CountersAreCounted | internal/repository/memory/monitoring.go:42-97 | over every run every rollup and dimension counter, above and below any watermark, is exactly the fold of the counted calls: those whose minute no later cutoff has passed |
| CounterRuns.CountersInWords | internal/repository/memory/monitoring.go:54-94 | over every run a rollup of a minute and inbox holds the number of its counted calls, of the failed ones and of those of each class, the sum of their latencies and of their body sizes and the counts of its histogram, and a dimension counter holds the number of those with its value |
| CounterRuns.CountedAgainstLogged | internal/repository/memory/store.go:239-266 | over every run and for every test, the counted calls that pass it are those in the log, or fewer exactly when a call that is still logged is no longer counted |
| CounterRuns.RunAgreesIff | internal/repository/memory/store.go:239-266 | over every run, in whatever order the cutoffs come, log and counters agree everywhere if and only if no call that is still in the log was straddled by a later cutoff |
| CounterRuns.LatestCutDecides | internal/repository/memory/store.go:239-266 | where no earlier retention reached beyond the latest one, that condition says that nothing recorded before the latest retention straddles its cutoff |
| CounterRuns.OlderCutoffDoesNotHeal | internal/httpapi/handler.go:495-505 | without that proviso it does not: a later retention with an older clock reading leaves the disagreement although the call does not straddle its cutoff |
| Rollups.RecordNeverHeals | internal/repository/memory/monitoring.go:42-97 | what log and counters disagree on before a recording they disagree on after it |
| CounterRuns.AlignedRunAgreesEverywhere | internal/repository/memory/store.go:239-266 | over every run whose latest cutoff is its highest and lies on a whole minute, log and counters agree everywhere |
| Rollups.AgreementSurvivesIff | internal/repository/memory/store.go:242-253 | after a retention run at or above the watermark, from agreement or from disagreement, log and counters agree everywhere if and only if no logged event straddled the cutoff |
| CounterRuns.StrayEventDisagrees | internal/repository/memory/store.go:242-253 | one call and a retention whose cutoff falls between the start of its minute and the call lead from agreement to disagreement, and any later retention that the call does not straddle leads back |
| CounterRuns.StrayEventExample | internal/repository/memory/store.go:242-253 | that failure at concrete values |
| Rollups.RetainTwice | internal/repository/memory/store.go:239-266 | retaining at one cutoff and then at a later one leaves what retaining at the later one alone leaves |
| MemoryStore.Store.GetMonitoringSummary | internal/repository/memory/monitoring.go:99-142 | the scan returns `SummaryOf` the log: the totals, classes, averages, percentiles and last-minute count of the fold of the matching events |
| MemoryStore.Store.GetMonitoringTimeseries | internal/repository/memory/monitoring.go:144-184 | the two loops return `PointsOf` the log: one point per minute of the window, folded from the matching events of that minute, with empty minutes filled in |
| MemoryStore.Store.PointOfAggregate | internal/repository/memory/monitoring.go:170-181 | one point shows the counts, the average and both percentiles of its aggregate |
| MemoryStore.Store.SeriesByMinute | internal/repository/memory/monitoring.go:148-160 | the map of aggregates holds for every minute the fold of its matching events |
| Summaries.PointsCoverWindow | internal/repository/memory/monitoring.go:162-182 | the points are consecutive whole minutes from the one of `from` to the one of `to`, at least one and at most 43201 of them for a normalised query |
| Summaries.Conservation | internal/repository/memory/monitoring.go:99-184 | for every log and normalised query the points' requests and errors add up to the summary totals, the last point is the last-minute count, total is 2xx+4xx+5xx and errors are 4xx+5xx |
| Summaries.PercentilesBracketed | internal/repository/memory/monitoring.go:132-182 | the summary's p95 and p99 lie between any bounds on the p95 and p99 of the minutes with traffic, hence between their minimum and maximum |
| Minutes.PercentileBracketed | internal/repository/memory/monitoring.go:406-417 | the percentile of merged aggregates lies between the smallest and the largest percentile of the parts with traffic |
| Minutes.MinutesMerge | internal/repository/memory/monitoring.go:144-184 | merging the folds of consecutive minutes is folding the window they cover |
| Folds.FoldParts | internal/repository/memory/monitoring.go:385-404 | folding two exclusive parts of a log and merging is folding the whole |
| Folds.FoldClasses | internal/repository/memory/monitoring.go:385-397 | every observation falls in one of the three classes and the errors are those of 4xx and 5xx |
| Summaries.SummaryFromRollups | internal/repository/memory/monitoring.go:99-142 | for whole minutes above the watermark and a filter by one inbox, the scanned summary equals the one merged from the rollups, field by field and with the last-minute count |
| Summaries.RollupsAreMinuteFolds | internal/repository/memory/monitoring.go:54-81 | from the watermark on, the rollups of an inbox are the minute folds of the log |
| Histogram.PercentileFromCumulativeBuckets | internal/repository/memory/monitoring.go:406-417 | the store's scan with the `+ 0.999999` target returns the same percentile as the service's scan with the ceiling |
| Histogram.PercentileFromBuckets | internal/service/monitoring.go:250-261 | the service's scan with the ceiling target returns that percentile |
| Histogram.TargetsAgree | internal/repository/sqlstore/monitoring.go:562-573 | over exact rationals the offset and the ceiling formulas give one target for every total at 95% and 99% |
| Histogram.PercentileIsNearestRank | internal/repository/memory/monitoring.go:406-417 | the histogram percentile is element number `ceil(q*n)` of the latencies in ascending order, rounded up to a bound and capped at the last |
| Histogram.RoundUpIsLeastBound | internal/repository/memory/monitoring.go:411-416 | rounding up gives the least bound that is not exceeded, or the last one |
| Folds.FoldDescribes | internal/repository/memory/monitoring.go:385-404 | the buckets of a fold are the cumulative histogram of its latencies and the request count is its length |
| Folds.FoldCounts | internal/repository/memory/monitoring.go:385-404 | for every list of events: the numbers of all, of the failed, of the 2xx, of the 4xx and of the 5xx ones, the sum of their latencies, and for each bound how many latencies are within it |
| Histogram.CountAtMostIs | internal/repository/memory/monitoring.go:399-403 | a bucket counts the events whose latency is at most its bound |
| Histogram.PercentileIsPercentile | internal/repository/memory/monitoring.go:406-417 | the answer is the least of the nine bounds within which at least so many per cent of the latencies lie, the last bound if there is none, and zero without latencies |
| Summaries.SummaryIsExact | internal/repository/memory/monitoring.go:103-141 | every number of a summary in terms of the matching events: total, failures, the three classes, error rate times total, average times total, both percentiles, calls per minute times the length of the window, and the events of the last minute of the window |
| Summaries.PointIsExact | internal/repository/memory/monitoring.go:148-183 | every number of a point in terms of the matching events of the minute that it begins |
| Summaries.SummaryNearestRank | internal/repository/memory/monitoring.go:127-134 | p95 and p99 of a summary are the latencies number ceil(95n/100) and ceil(99n/100) of the n matching events in ascending order, rounded up to a bound |
| MemoryStore.Store.GetMonitoringBreakdown | internal/repository/memory/monitoring.go:186-225 | whatever order the map is walked in, the answer is the part of the full ranking that the limit admits |
| MemoryStore.Store.CountValues | internal/repository/memory/monitoring.go:193-205 | the counting loop returns how often each non-empty value occurs among the matching events, and how many match |
| Breakdowns.CountsAreOccurrences | internal/repository/memory/monitoring.go:193-205 | a value is counted exactly as often as it occurs, and is listed if and only if it is not empty and occurs |
| Breakdowns.RankingUnique | internal/repository/memory/monitoring.go:215-220 | there is one ranking by count descending and value ascending, although the sort is not stable |
| Breakdowns.BreakdownUnique | internal/repository/memory/monitoring.go:186-225 | two breakdowns of one query are equal |
| Breakdowns.BreakdownIsTop | internal/repository/memory/monitoring.go:215-223 | the answer has min(limit, distinct values) items and every value left out ranks after each one listed |
| Breakdowns.BreakdownIsExact | internal/repository/memory/monitoring.go:190-224 | larger counts come first and equal counts by their texts; each count is the number of matching events with that value and each percentage its share; every value left out occurs less often than each one listed, or as often with a larger text, and is left out only when the limit is full |
| Breakdowns.RanksByCount | internal/repository/memory/monitoring.go:215-220 | of two items in the answer the earlier has the larger count, or the same count and the smaller text |
| Domain.FieldsOfDimensions | internal/repository/memory/monitoring.go:366-383 | the six dimensions, and which field of a call each of them counts |
| Text.EqualFoldIff | internal/repository/memory/monitoring.go:332-337 | two texts are the same but for case when they are equally long and differ only in letters that are 32 apart |
| Text.ContainsIff | internal/repository/memory/monitoring.go:338-340 | a text holds what begins at some position of it |
| Text.TrimTakesSpaces | internal/service/monitoring.go:223-231 | trimming takes spaces from both ends, and only spaces |
| Text.LessIff | internal/repository/memory/monitoring.go:219 | one text is before another when it ends before they differ or is smaller where they first differ |
| Breakdowns.RankingConserves | internal/repository/memory/monitoring.go:193-220 | before the limit the counts add up to the matching events minus those without a value |
| Breakdowns.PercentagesWithinHundred | internal/repository/memory/monitoring.go:207-223 | the exact percentages of an answer add up to at most 100 |
| Breakdowns.BreakdownFromCounters | internal/repository/memory/monitoring.go:76-94 | for whole minutes above the watermark the count of a value before the limit is the sum of its dimension counters |
| MemoryStore.Store.ListMonitoringInboxStats | internal/repository/memory/monitoring.go:227-279 | one row per inbox that is not deleted and that the query admits, in an order of creation, each the fold of the matching events of that inbox |
| MemoryStore.Store.StatsByInbox | internal/repository/memory/monitoring.go:243-270 | the counting loop leaves in the map exactly the statistics of the listed inboxes |
| InboxStats.StatsConserve | internal/repository/memory/monitoring.go:252-279 | the rows plus the matching events of no listed inbox add up to the total of the summary |
| InboxStats.UnstableIff | internal/service/monitoring.go:153-166 | with traffic an inbox is unstable if and only if 50*errors >= requests or fewer than ceil(19n/20) of its n calls took at most 250 ms; without traffic it is `no_traffic`; otherwise healthy |
| InboxStats.HealthIsExact | internal/service/monitoring.go:153-176 | an assessment in terms of the matching events of its inbox: their number, the failures, the error rate, p95, and the state by one failure in fifty or by fewer than 95 in a hundred calls within 250 ms |
| InboxStats.ReportIsExact | internal/service/monitoring.go:143-178 | a report assesses every inbox that is not deleted and that the query admits, once each, the one created first first |
| Services.Services.GetMonitoringInboxHealth | internal/service/monitoring.go:143-178 | refused exactly for unacceptable queries; otherwise one assessment per row of the statistics, in the same order; the one created first comes first, and each assessment is in terms of the matching events of its inbox |
| Services.Services.AssessHealth | internal/service/monitoring.go:154-175 | error rate, p95 and state of one row are those of `HealthOf`, which `UnstableIff` characterises |
| MemoryStore.Store.ListMonitoringLiveEvents | internal/repository/memory/monitoring.go:281-324 | sorting newest first, cutting and sorting oldest first yields a snapshot: min(limit, matches) matching events in ascending time, none older than one left out |
| Snapshots.SortedCutIsSnapshot | internal/repository/memory/monitoring.go:297-305 | both sorts and the cut give a snapshot whatever they do with equal times |
| Snapshots.ReversedCutIsSnapshot | internal/repository/sqlstore/monitoring.go:490-492 | newest first up to the limit and then reversed gives a snapshot as well |
| Snapshots.SnapshotUnique | internal/repository/sqlstore/monitoring.go:490-492 | when times tell the matches apart there is one snapshot, so both stores list the same events in the same order |
| Snapshots.ReverseInPlace | internal/repository/sqlstore/monitoring.go:490-492 | the two-index loop leaves the array reversed |
| Snapshots.ListedOrCut | internal/repository/memory/monitoring.go:300-305 | a match is listed, or the limit is reached and nothing listed is older |
| MemoryStore.Store.CreateInbox | internal/repository/memory/store.go:32-42 | a live inbox with the same token means a conflict and no change; otherwise the inbox is stored under its ID |
| MemoryStore.Store.GetInboxByID | internal/repository/memory/store.go:60-69 | the live inbox stored under the ID, or not found |
| MemoryStore.Store.GetInboxByToken | internal/repository/memory/store.go:71-81 | some live inbox of the token, or not found exactly when there is none |
| MemoryStore.Store.UpdateInbox | internal/repository/memory/store.go:83-112 | the patched record replaces the live one, with `disabledAt` set or cleared by the status, or not found and no change |
| MemoryStore.Store.SoftDeleteInbox | internal/repository/memory/store.go:114-126 | a live inbox gets its deletion time and nothing else changes |
| MemoryStore.Store.ListCapturedRequests | internal/repository/memory/store.go:135-206 | the total is the number of requests of the inbox that pass the filter; the rows are a page of an arrangement of them by time received; the program panics exactly for the pages that `Pages.Panics` describes |
| MemoryStore.Store.CollectRequests | internal/repository/memory/store.go:140-184 | walking the map in any order collects exactly the requests of the inbox that pass the filter, once each |
| RequestFilters.PassesTests | internal/repository/memory/store.go:141-182 | the chain of tests lets a request through exactly when it meets every part of the filter that is set |
| RequestFilters.PassesIff | internal/repository/memory/store.go:141-182 | which requests pass, part by part of the filter: method in any case, content type, path, address, agent, hash, body presence, sizes, times, and a text that occurs in the path, the content type, the agent, the body or a name or value of the headers or query parameters |
| RequestFilters.MatchesTextQuery | internal/repository/memory/store.go:287-312 | a text query matches exactly when it is blank or occurs, in any case of letters, in the path, content type, user agent, a header, a query parameter or the body |
| RequestFilters.FindInPairs | internal/repository/memory/store.go:301-310 | walking headers or parameters in any order finds the text if and only if some name or value holds it |
| MemoryStore.Store.DeleteExpiredCapturedRequests | internal/repository/memory/store.go:219-269 | the new state is `Purged` and the result `PurgedCount` |
| MemoryStore.Store.DropExpiredRequests | internal/repository/memory/store.go:222-237 | deleting while walking the map keeps exactly the requests that are not expired and counts the others |
| MemoryStore.Store.ExpiryTest | internal/repository/memory/store.go:224-233 | the test of the loop holds exactly for a request older than the cutoff of its own inbox |
| MemoryStore.Store.KeepRecentEvents | internal/repository/memory/store.go:240-246 | the rebuilt log is the old one without the events before the cutoff, in order |
| MemoryStore.DropStale | internal/repository/memory/store.go:247-256 | deleting while walking a counter map keeps exactly the counters whose minute parses and is not before the cutoff |
| Lifecycle.PurgeIsExact | internal/repository/memory/store.go:222-237 | retention removes exactly the requests that have expired, touches no other, and reports how many it removed |
| Lifecycle.PurgeKeeps | internal/repository/memory/store.go:222-246 | a request stays exactly when it is no older than the positive number of days of its inbox or, where there is none, the default, a day having 86400 seconds; exactly the log entries within the default stay, in order; the count is the difference |
| Lifecycle.PurgeKeepsCounters | internal/repository/memory/store.go:248-265 | exactly the rollups and dimension counters whose minute begins within the default number of days stay |
| Lifecycle.PurgeTwice | internal/repository/memory/store.go:219-269 | retention at t1 and then at t2 >= t1 leaves the requests, events and counters that retention at t2 alone leaves, and the counts add up |
| Lifecycle.PatchIsExact | internal/repository/memory/store.go:90-111 | each field that the patch sets is the new one and each other the old one; disabling sets the disabling time and enabling clears it |
| Lifecycle.StepKeepsInvariant | internal/repository/memory/store.go:32-133 | every lock-granular step of the service keeps the store invariant and leaves deleted records as they were |
| Lifecycle.RunKeepsInvariant | internal/service/service.go:47-164 | over every interleaving: live tokens are unique, an inbox is disabled if and only if `disabledAt` is set, every captured request belongs to an inbox in the map, and no inbox ID holds the separator of the counter keys |
| Lifecycle.ServiceKeepsCounters | internal/repository/memory/store.go:239-266 | in every run of the whole service with calls before year 10000 the counters agree with the log from the watermark on and never exceed it below, everywhere they are the folds of the counted calls, and they agree with the log everywhere if and only if no call still logged was straddled by a later cutoff |
| Lifecycle.CaptureTakenIff | internal/service/service.go:131-162 | in every interleaving, a capture that stores a request looked the inbox of that request up in its own last step, when it was live and not disabled; when the request is stored the inbox still takes requests if and only if nobody deleted it since that lookup and the last status set on it since then, if any, is not disabled |
| Lifecycle.StoredByCapture | internal/service/service.go:158-160 | every request in the store of a reachable state was put there by the store step of a capture |
| Lifecycle.DeletedWhileCapturing | internal/service/service.go:131-162 | it need not be when the request is stored: a run in which the inbox is deleted between the lookup and the store of a capture |
| Lifecycle.DeletedNeverChanges | internal/repository/memory/store.go:83-126 | once deleted, a record stays as it is for the rest of the run |
| Lifecycle.TokenLookupDeterministic | internal/repository/memory/store.go:71-81 | in a reachable state the lookup by token has one answer, although the map is walked in any order |
| Lifecycle.NoOrphans | internal/repository/memory/store.go:224-227 | in a reachable state retention never meets a request without its inbox |
| Pages.OffsetExactIff | internal/repository/memory/store.go:329-342 | the 64-bit offset is the intended one if and only if it fits |
| Pages.PageOutcome | internal/repository/memory/store.go:321-342 | for every page: with the exact offset e and its remainder modulo 2^64, the program panics if and only if the remainder or the end of the page is negative as an `int`; the rows are the intended ones if and only if it does not panic and the remainder is not within the list while e is past it; in that last case it lists rows of another page |
| Pages.OffsetCanWrap | internal/repository/memory/store.go:336-337 | a page number that a request can carry and for which the program panics |
| Pages.LargePageShowsFirstRows | internal/repository/memory/store.go:336-337 | a page number past the last that a request can carry and that lists the rows of the first page |
| Pages.PagesPartition | internal/repository/memory/store.go:321-342 | pages 1 to total_pages are the whole list, in order and once each |
| Pages.PageEmptyIffPast | internal/httpapi/handler.go:800-816 | a page up to the last has rows; a page past the last is empty if and only if the remainder of its offset modulo 2^64 lies past the list and is not negative as an `int` |
| Pages.HasNextIffMore | internal/httpapi/handler.go:800-816 | `has_next` is right about whether the next page has rows, if and only if the offset of that page is not past the list with a remainder inside it |
| Pages.TotalPagesCover | internal/httpapi/handler.go:801-804 | `total_pages` is the least number of pages that hold everything |
| Pages.ReadPage | internal/httpapi/handler.go:726-739 | page numbers that are not positive become 1, sizes that are not positive 20, sizes above 100 become 100, and everything else stays |
| Pages.ListingFromOneList | internal/repository/memory/store.go:185-205 | with distinct times of receipt every page is cut from one and the same list |
| Pages.ListingIsOrdered | internal/repository/memory/store.go:185-205 | the rows are in ascending order of receipt for "asc" and in descending order otherwise, each shows a match field by field, and no match left out of page 1 is older (for "asc") or newer (otherwise) than a row listed |
| Pages.AllPagesListAll | internal/repository/memory/store.go:185-205 | reading pages 1 to total_pages of an unchanged store lists every matching request exactly once, in order |
| Pages.AllPagesInOrder | internal/repository/memory/store.go:185-205 | all pages read in turn list as many rows as there are matches, each match among them, in the asked order of receipt across pages |
| Pages.HasPrevIffBefore | internal/httpapi/handler.go:805-815 | the numbers repeat the page and the total, and `has_prev` is true exactly when rows lie before the page |
| Services.Services.CreateInbox | internal/service/service.go:47-80 | a blank name or a retention that is not positive is refused, then a failed generator, both without change; otherwise the trimmed, active inbox is created and returned with its capture URL, or the token conflicts; with a new ULID this is a step of the state machine; a conflict is exactly a live inbox with the token, and the new inbox shows its input |
| Services.CaptureURLIs | internal/service/service.go:223-233 | the capture URL is the configured address without its last slash, /hook/ and the token; without a configured address the asked host takes its place, by default over https |
| Services.CaptureIsExact | internal/service/service.go:142-158 | a captured request shows its input field by field, with the method in upper case and the size of the body |
| Services.Services.GetInbox | internal/service/service.go:86-91 | a blank ID is refused, and any other yields the record under it exactly when that is not deleted |
| Services.Services.UpdateInbox | internal/service/service.go:93-108 | an invalid patch is refused without change; a valid one is a step of the state machine with its name trimmed; each field of the result is the patched one, the disabling time follows the status, and no other inbox changes |
| Services.Services.DeleteInbox | internal/service/service.go:110-112 | a step of the state machine that succeeds exactly for a live inbox; it sets the deletion and update times and changes nothing else |
| Services.Services.CaptureRequest | internal/service/service.go:127-164 | refused for size, unknown token, disabled inbox or a failed generator, in this order and with no change; otherwise the request is stored under an inbox found by the token; within the state machine the call is its lookup step and, when it succeeds, its store step; the request shows its input, with the method in upper case |
| Services.Services.ListRequests | internal/service/service.go:177-197 | refused exactly for an unknown or deleted inbox or an unsound filter; otherwise the total and the page of the listing: oldest first for "asc" in any case and else newest first, each row shows a match, and on page 1 no match left out comes before a listed row |
| Services.OrderDoesNotFilter | internal/service/service.go:193-195 | filling in the default order changes neither which requests are listed nor that the order is not ascending |
| Services.Services.ValidateCaptureTarget | internal/service/service.go:166-175 | refused exactly when no live inbox has the token, or the one found is disabled |
| Services.Services.RunRetention | internal/service/service.go:211-213 | a retention step with the configured default: which requests and log entries stay, in days, and how many requests go |
| Services.Services.RecordHookObservation | internal/service/monitoring.go:45-105 | the normalised observation is recorded, the returned event shows it, and for an empty or known inbox ID this is a step of the state machine; the event shows the call: its class by its status, its time, path, address, agent and clamped measures |
| Services.Services.NormalizedObservation | internal/service/monitoring.go:46-87 | the steps that fill in, clamp and classify give `ObservationFrom` |
| MonitoringInputs.ObservationIsWellFormed | internal/service/monitoring.go:46-87 | every recorded observation lies in its own minute and in one of three classes, and is an error if and only if its status is not 2xx |
| MonitoringInputs.ObservationShowsCall | internal/service/monitoring.go:46-87 | what is recorded in terms of the call: 2xx exactly for 200 to 299, 4xx exactly for 400 to 499 and 5xx otherwise, codes that are not positive as 500, negative measures as zero, blank methods and countries as UNKNOWN and others in upper case, and the other fields as given |
| MonitoringInputs.TextQueryFindsParts | internal/service/monitoring.go:69 | a text query finds every call that has it, in any case of letters, in its method, path, class, address, country, agent or content type |
| MonitoringInputs.ObservationIsRecordable | internal/service/monitoring.go:71-87 | an observation before year 10000 whose inbox ID holds no separator meets what the agreement of counters and log asks of recorded observations |
| MonitoringInputs.RecordedMethodIsFolded | internal/service/monitoring.go:56-59 | a method asked for in any case of letters selects the calls recorded under its upper case |
| MonitoringInputs.NormalizeMonitoringQuery | internal/service/monitoring.go:194-235 | accepted exactly when the completed window is ordered and at most 30 days, the sizes are sound and the class is known; the result is the normal form |
| MonitoringInputs.NormalizeAgain | internal/service/monitoring.go:194-235 | normalising an accepted query again at any other time accepts it and changes nothing, and its window is normal |
| MonitoringInputs.NormalFormSelectsTheSame | internal/service/monitoring.go:223-232 | changing the case of the filters does not change which observations they select |
| MonitoringInputs.AcceptableIff | internal/service/monitoring.go:194-229 | which queries are answered: the window, completed by a quarter of an hour, is in order and at most 30 days long, sizes are not negative and in order, and the class is one of three or blank |
| MonitoringInputs.SelectedIff | internal/repository/memory/monitoring.go:325-364 | which calls an accepted query selects, in terms of what was asked: those in the completed window, its ends included, that pass each filter that is not blank |
| Services.Services.GetMonitoringSummary | internal/service/monitoring.go:107-113 | invalid input exactly when the query is not acceptable; otherwise the summary of the normal form, every number of it in terms of the matching events |
| Services.Services.GetMonitoringTimeseries | internal/service/monitoring.go:115-121 | invalid input exactly when the query is not acceptable; otherwise between 1 and 43201 points, one for each minute, every number of it in terms of the matching events of the minute |
| Services.Services.GetMonitoringBreakdown | internal/service/monitoring.go:123-141 | refused exactly for unacceptable queries and unknown dimensions; otherwise the most frequent values of the matching events, with their numbers, up to the limit brought into 1 to 100 |
| Services.Services.GetMonitoringLiveSnapshot | internal/service/monitoring.go:180-192 | refused exactly for unacceptable queries; otherwise a snapshot with the limit brought into 1 to 500 |
| RateLimiter.Limiter.Allow | internal/infra/ratelimit/limiter.go:29-47 | the new table and the decision are those of `Step`, also when entries are shared objects |
| RateLimiter.EffectiveLimit | internal/infra/ratelimit/limiter.go:19-27 | a limit that is not positive becomes 120 |
| RateLimiter.Normalized | internal/infra/ratelimit/limiter.go:30-32 | callers without a key share one |
| RateLimiter.SlidingIntervalBound | internal/infra/ratelimit/limiter.go:29-47 | in every run with non-decreasing times, any interval of m minutes holds at most (m+1)*limit-1 admitted calls of a key |
| RateLimiter.SlidingIntervalBoundIsAttained | internal/infra/ratelimit/limiter.go:29-47 | for every limit and every m some run reaches that bound |
| RateLimiter.WindowCountIsExact | internal/infra/ratelimit/limiter.go:36-46 | the count of a window is the number of calls admitted since it opened |
| RateLimiter.RefusalIsJustified | internal/infra/ratelimit/limiter.go:36-44 | a refused call finds exactly `limit` admitted calls in its window, all less than a minute old |
| Ulid.NewULID | internal/infra/id/id.go:13-38 | the result is the 26 base-32 digits of the 128-bit value of the low 48 bits of the time and the random bytes; the result is an identifier, and only the random source can fail |
| Ulid.CrockfordDigits | internal/infra/id/id.go:26-33 | the countdown of divisions writes the base-32 digits of the value |
| Ulid.BytesValue | internal/infra/id/id.go:14-26 | the sixteen bytes hold time and random part of the value |
| Ulid.FirstDigitSmall | internal/infra/id/id.go:34-36 | the first digit is at most 7, so the overflow exit is never taken |
| Ulid.IdentifierHasNoBar | internal/infra/id/id.go:11-38 | an identifier has 26 characters, all of the alphabet without I, L, O and U, so that none holds the separator of the counter keys |
| Ulid.RoundTrip | internal/infra/id/id.go:13-38 | decoding the 26 characters gives back the 128-bit value |
| Ulid.TimePrefix | internal/infra/id/id.go:15-33 | the first ten characters depend on the time alone and decode to it |
| Ulid.OrderIsNumeric | internal/infra/id/id.go:26-33 | text order of identifiers is the order of their values |
| Ulid.EarlierSortsFirst | internal/infra/id/id.go:15-33 | an earlier millisecond gives a smaller identifier, whatever the random bytes |
| Idempotency.Cache.ReadIdempotencyResponse | internal/httpapi/handler.go:592-614 | an empty key reads nothing; otherwise expired entries go and the answer is the remaining entry of the key |
| Idempotency.Cache.StoreIdempotencyResponse | internal/httpapi/handler.go:616-634 | an empty key stores nothing; otherwise expired entries go, the response is stored for a day and the cap is enforced |
| Idempotency.Cache.PurgeExpired | internal/httpapi/handler.go:636-642 | exactly the entries past their time go |
| Idempotency.Cache.EnforceCap | internal/httpapi/handler.go:644-659 | the loop ends with at most 10000 entries, removes none needlessly, and removes no entry that expires later than one it keeps |
| Idempotency.Cache.OldestKey | internal/httpapi/handler.go:646-656 | the scan of a non-empty map finds an entry that expires first; its exit for an empty key is never taken |
| Idempotency.RunIsExplained | internal/httpapi/handler.go:592-659 | over every run under a clock that does not go back: at most 10000 entries, each the latest store of its key and unexpired, and every missing key has expired or was crowded out |
| Idempotency.LookupMeansLatest | internal/httpapi/handler.go:592-614 | a hit is the latest response stored for the key, at most 24 h old; a miss means nothing stored, expired, or 10000 other keys stored no earlier |
| Idempotency.LookupHitsIff | internal/httpapi/handler.go:592-614 | a stored key misses when its latest store has expired or 10000 other keys were stored strictly later; when no other key was stored at the very same time, it hits if and only if it has not expired and fewer than 10000 other keys were stored since |
| Idempotency.CrowdForcesMiss | internal/httpapi/handler.go:644-659 | 10000 other keys stored strictly later leave no room for a key |
| Idempotency.LaterStaysInRun | internal/httpapi/handler.go:636-659 | as long as a key is held, so is every key stored strictly later |
| Idempotency.EvictedIsCrowded | internal/httpapi/handler.go:644-659 | an entry is evicted only when 10000 other keys were stored no earlier |
| Idempotency.CacheKeyInjective | internal/httpapi/handler.go:617 | under one method and path the client's key determines the cache key |
| Idempotency.OverlappingRequestsBothMiss | internal/httpapi/handler.go:137-171 | two overlapping requests with one key both miss, and the second response replaces the first |
| CreateInboxHandler.HandleCreateInbox | internal/httpapi/handler.go:136-175 | look up, create, remember: a hit changes no inbox, a refused creation is not remembered, a new inbox is |
| CreateInboxHandler.FreshIsRemembered | internal/httpapi/handler.go:158-172 | a request that created an inbox under a key leaves its response as the latest store of that key |
| CreateInboxHandler.RetryReplays | internal/httpapi/handler.go:136-143 | a retry that does not overlap is answered with the stored response and creates nothing, as long as that is at most a day old and was not crowded out |
| Sse.SseBroker.Subscribe | internal/httpapi/sse.go:14-21 | a new open, empty channel is registered under the topic |
| Sse.SseBroker.Cancel | internal/httpapi/sse.go:23-35 | the channel leaves its group and is closed, an emptied group goes, and a second cancel changes nothing |
| Sse.SseBroker.CopyGroup | internal/httpapi/sse.go:41-51 | every channel of the group exactly once, in some order |
| Sse.SseBroker.TrySend | internal/httpapi/sse.go:53-58 | the data joins the buffer, or is dropped when it is full |
| Sse.SseBroker.Publish | internal/httpapi/sse.go:40-60 | without interruption every subscriber of the topic is offered the data once and no other channel changes |
| SseRuns.StepKeepsInvariant | internal/httpapi/sse.go:14-60 | every step keeps the invariant of the broker |
| SseRuns.RunKeepsInvariant | internal/httpapi/sse.go:14-60 | over every interleaving: a channel is registered if and only if it is open, no group is empty, buffers hold at most 8, and what a subscriber took in are publications of its topic, once each and in each publisher's order |
| SseRuns.OpenIffNotCancelled | internal/httpapi/sse.go:23-35 | a channel open at one point of a run is open at its end if and only if it was not cancelled in between |
| SseRuns.SendPanicsIff | internal/httpapi/sse.go:51-58 | a send to a channel of the copied group panics if and only if that channel was cancelled between the copy and the send |
| SseRuns.ClosedAtMostOnce | internal/httpapi/sse.go:25-29 | over every run no channel is closed twice |
| SseRuns.PublicationSettled | internal/httpapi/sse.go:40-60 | exactly one thing has become of a publication for each channel it copied: it is on its way, it was taken in or dropped at a full buffer, or the publisher panicked in this very publication before serving the channel |
| SseRuns.OfferedIffNoneMet | internal/httpapi/sse.go:51-59 | over every run, a publication that is no longer on its way to a channel it copied was offered to it if and only if no earlier send of the same publication met a channel cancelled since the copy |
| SseRuns.CutOffIff | internal/httpapi/sse.go:53-58 | a publication is cut off before a channel if and only if one of its sends met a channel cancelled since the copy while that channel was unserved |
| SseRuns.PanicSkipsOthers | internal/httpapi/sse.go:53-58 | a run in which one subscriber's cancel makes the publisher panic before another open channel is served |
| LiveStream.StepKeepsInvariant | internal/httpapi/monitoring.go:81-143 | every step of recorders, streams, broker, clock and retention keeps the hand-off invariant |
| LiveStream.NoGap | internal/httpapi/monitoring.go:102-142 | in every interleaving, an event from the window's start on that passes the filters and whose recorder is through with the stream's open channel is in the snapshot, cut by its limit in favour of events no older, or was offered to the stream's channel, if the query is open-ended or its window does not end before the subscription |
| LiveStream.WindowEndingEarlyLeavesGap | internal/httpapi/monitoring.go:83-105 | the condition is needed: for every query whose window ends before the subscription and every call that passes its filters there is a run that loses its event |
| LiveStreamHandler.RecordThenPublish | internal/httpapi/handler.go:267-288 | a call without a response leaves no trace; any other is logged and then offered, as the event it was logged as, to every live subscriber |
| LiveStreamHandler.PublishMonitoringLiveEvent | internal/httpapi/monitoring.go:156-165 | a missing event is not published; any other goes to the live topic |
| LiveStreamHandler.BeginLiveStream | internal/httpapi/monitoring.go:88-125 | subscribe first, snapshot second; a refused query leaves no subscription behind |
| LiveStreamHandler.ServeEvents | internal/httpapi/monitoring.go:103-142 | the select loop over any turns of sends, receives, heartbeats and the end of the request: what it writes, the buffer it leaves, and the cancel of the channel when it ends |
| LiveStreamHandler.ServeTurn | internal/httpapi/monitoring.go:129-142 | one turn: the case taken writes one event or ping or ends the loop, and a send joins the buffer or is dropped |
| LiveStreamHandler.StreamConserves | internal/httpapi/monitoring.go:129-142 | for every schedule, the events written followed by those still buffered are those buffered at first followed by those accepted since, in order |
| LiveStreamHandler.NothingDroppedIff | internal/httpapi/sse.go:53-60 | a stream has written or still holds every event sent to it, in the order sent, if and only if at every send fewer than eight events were unread |

## Left out

- MemoryStore.Store.ListCapturedRequests: IDs in the map are taken to match their keys, which `Lifecycle.RunKeepsInvariant` proves of every reachable state.
- MemoryStore.Store.RecordHookObservation: the 64-bit counters are unbounded integers, so their wrap-around after 2^63 events is not modelled.
- RateLimiter.SlidingIntervalBound: times are taken as non-decreasing in the order of the critical sections; the source reads the clock before it takes the lock, and `time.Sub` saturates after 292 years.
- Idempotency.RunIsExplained: the clock readings are taken as non-decreasing in the order of the critical sections, for the same reason.
- LiveStream.NoGap: what is offered to a full buffer is dropped (`LiveStreamHandler.NothingDroppedIff` says when none is), an event below a retention cutoff from before the snapshot may be gone, and nothing is claimed for a closed channel or an announcement cut off before the channel.
- LiveStreamHandler.ServeEvents: times are not modelled, so the heartbeat may fire at any turn, and the bytes of a frame are one value.
- Services.Services.CreateInbox: what the generators of ID and token return, or that they fail, are parameters; `Ulid.NewULID` models the first, and the second is not part of this model.
- A publication to the topic of an inbox and the later live publication of the same hook call count as two publishers, because the recorder still runs when the first one panics.
- Texts are ASCII: case mapping, folding and trimming treat no other letters or spaces.
- Times before year 1 do not occur; observations of year 10000 and later are recorded but outside the agreement of counters and log, because their keys cannot be read back.
- Histogram buckets are a sequence by position of the bound instead of a map by bound.
- Channels live in a table by number, which stands for the addresses of the original.
- Rounding of floating-point numbers: the formulas for rates, averages and targets are taken exactly.
- The SHA-256 hash of a body, which is a parameter; raw bodies are texts.
- `ListInboxes`, `GetCapturedRequestByID`, `CountActiveInboxes`, `GetRequestDetails`: lookups and listings of the kinds already covered.
- The SQL store except for its percentile formula and the reversal of its live events; it differs from the memory store in what it purges, how it compares times and how it matches text.
- HTTP routing, JSON, CORS, access validation, logging, metrics, configuration and migrations.
