# Simulation-parameter miners, modelled in Dafny

The miners read an already-parsed event log (a sequence of traces, each a
sequence of events) and derive simulation parameters from it:

- **Inter-arrival times** (`inter_arrival-miner/interarrival.py`). Every trace
  contributes the timestamp of its first `start` event. These are sorted and
  turned into gaps in seconds. A best-fitting distribution is then chosen among
  `fixed, normal, exponential, uniform, triangular, lognormal, gamma` by the
  Wasserstein distance between the observations and a synthetic sample drawn
  from each fitted candidate.
- **Activity resources** (`resource-miner/role_resource.py`). Each activity is
  listed with the set of resources that performed it, joined by `", "`.
- **Resource calendars** (`resource-miner/resource_calendars.py` and
  `resource-miner/role_resource_calendars.py`). Each resource gets its
  workdays and, for each weekday, the times of day of its earliest and latest
  event.

Modules:

| file | module | models |
|---|---|---|
| `wrappers.dfy` | `Wrappers` | `Option` |
| `seqs.dfy` | `Seqs` | first-appearance de-duplication (pandas `unique()`, dict key order) |
| `time.dfy` | `Time` | timestamps as (date, time of day), weekday of a date, chronological order, `min`/`max`, sorting |
| `event_log.dfy` | `EventLog` | events (`concept:name`, `lifecycle:transition`, `org:resource`, `time:timestamp`), traces, logs |
| `distribution_fit.dfy` | `DistributionFit` | `possible_distributions`, `find_best_fit_distribution` |
| `interarrival.dfy` | `InterArrival` | `compute_inter_arrival_times`, `find_inter_arrival_distribution` |
| `role_resource.dfy` | `RoleResource` | `get_activity_resources` (both copies) |
| `resource_calendars.dfy` | `ResourceCalendars` | `structured_resource_calendar` of `resource_calendars.py` |
| `role_resource_calendars.dfy` | `RoleResourceCalendars` | `structured_resource_calendar` of `role_resource_calendars.py` |

Modelling choices:

- **Timestamps.** A timestamp is an `Instant(date, clock)`. `date` counts days
  since 1970-01-01, which was a Thursday. `clock` is the second of the day. The
  weekday (`day_name()`) is computed from the date. The time of day
  (`.time()`) is the clock. Gaps are differences of `date * 86400 + clock`.
- **Numerical library.** `np.percentile`, `dist.fit`, `dist.rvs` and
  `stats.wasserstein_distance` are fields of a `DistributionFit.Library`
  value supplied by the caller. `fit` and `rvs` answer `None` where the
  library raises. A fitted tuple of the wrong size fails to unpack in the
  source, so it is treated as a raise too.
- **Failure.** An empty sample makes `np.min` raise. The model returns `None`
  for it.
- **Sorting.** `list.sort()` and `Series.sort_values()` are the pure function
  `Time.Sort`, proved sorted and a permutation.
- **Dictionaries.** A Python dict whose key order matters is a pair: its
  keys in insertion order, and a `map`. This holds for the dicts that
  collect activities and resources, and for the dict
  `structured_resource_calendar` of `role_resource_calendars.py` returns.
  The dicts of `find_best_fit_distribution` (`generated_values`,
  `distr_params` and the distances) are plain `map`s: their keys are
  inserted in the fixed registry order, and that order is the candidate
  list `DistributionFit.ArgMin` walks.
- **Set iteration.** The order in which a Python set is iterated is
  unspecified. `RoleResource.Enumerate` picks elements by arbitrary choice,
  and contracts only say that the result lists the set.

## Model

| member | source | states |
|---|---|---|
| `DistributionFit.Rank` | inter_arrival-miner/interarrival.py:9-17 | every candidate has a position in the fixed trial order `fixed, normal, exponential, uniform, triangular, lognormal, gamma` |
| `DistributionFit.Arity` | inter_arrival-miner/interarrival.py:44-77 | definition: 1 parameter for `fixed`, 2 for normal, exponential and uniform, 3 for triangular, lognormal and gamma, the tuple sizes the code unpacks; `Attempt` and `FindBestFitDistribution` ensure a report has that many parameters |
| `DistributionFit.Fences` | inter_arrival-miner/interarrival.py:21-25 | definition: the lower and upper fence, 1.5 interquartile ranges below the first and above the third quartile of the library's percentiles |
| `DistributionFit.Prepared` | inter_arrival-miner/interarrival.py:20-26 | definition: the sample unchanged, or trimmed to its fences when outliers are removed; what the trimming keeps is stated by `Trim`, `TrimConcat` and `TrimIdempotent` |
| `DistributionFit.Trim` | inter_arrival-miner/interarrival.py:26 | a value is kept iff it is in the input and within `[lower, upper]`; nothing is added |
| `DistributionFit.TrimConcat` | inter_arrival-miner/interarrival.py:26 | trimming works piecewise, so the kept values stay in their original relative order |
| `DistributionFit.TrimIdempotent` | inter_arrival-miner/interarrival.py:20-26 | trimming a trimmed sample with the same fences removes nothing more |
| `DistributionFit.Min` | inter_arrival-miner/interarrival.py:34 | `np.min` is an element of the sample and not above any element |
| `DistributionFit.Max` | inter_arrival-miner/interarrival.py:34 | `np.max` is an element of the sample and not below any element |
| `DistributionFit.MinMaxEqualIffConstant` | inter_arrival-miner/interarrival.py:34 | `min == max` holds exactly when all observations are equal (both directions) |
| `DistributionFit.Mean` | inter_arrival-miner/interarrival.py:38-45 | definition of `np.mean`: the sum over the length; `MeanOfConstant` gives its value on an all-equal sample, and `Attempt` uses it as the `fixed` parameter |
| `DistributionFit.MeanOfConstant` | inter_arrival-miner/interarrival.py:38 | the mean of an all-equal sample is that value, so the degenerate answer's single parameter is the common observation |
| `DistributionFit.SumOfConstant` | inter_arrival-miner/interarrival.py:38 | n copies of v sum to n·v |
| `DistributionFit.SampleCount` | inter_arrival-miner/interarrival.py:28-29 | definition: `N` when it is given and non-zero, otherwise the sample size; `FindBestFitDistribution` states which size each candidate is asked for |
| `DistributionFit.Attempt` | inter_arrival-miner/interarrival.py:42-81 | `fixed` always succeeds, with the mean as its only parameter and N copies of the mean as its sample; every success has 1, 2 or 3 parameters as the candidate's fit returns |
| `DistributionFit.Score` | inter_arrival-miner/interarrival.py:83 | definition: one entry of `wass_distances`, the library distance between the observations and the candidate's sample; `IsBestFit` and `ArgMinIsBestScore` rank candidates by it |
| `DistributionFit.ArgMin` | inter_arrival-miner/interarrival.py:83-84 | `min(dict, key=dict.get)`: None iff no key has a distance; otherwise a scored key whose distance is not above any other and strictly below every key inserted before it |
| `DistributionFit.Params` | inter_arrival-miner/interarrival.py:86 | the reported parameter list holds the fitted values in fit order, one entry each, with their names dropped |
| `DistributionFit.IsBestFit` | inter_arrival-miner/interarrival.py:34-93 | definition of the selection protocol: nothing for an empty sample, `fixed` with the common value for an all-equal one, otherwise the earliest candidate of least distance among those whose fit and size-N sampling succeeded; `BestFitUnique` shows it admits one answer and `ArgMinIsBestFit` that the code meets it |
| `DistributionFit.BestFitUnique` | inter_arrival-miner/interarrival.py:83-93 | the selection protocol admits at most one answer, so the tie-break makes the result deterministic |
| `DistributionFit.FitCandidates` | inter_arrival-miner/interarrival.py:42-81 | after the candidate loop, a candidate has a sample iff its fit, unpacking and sampling all succeed; its sample and parameters are those of that attempt |
| `DistributionFit.ArgMinIsBestScore` | inter_arrival-miner/interarrival.py:83-84 | the first closest key of the distance dict is a candidate that produced a sample, is at least as close as every such candidate, and is strictly closer than every earlier one |
| `DistributionFit.ArgMinIsBestFit` | inter_arrival-miner/interarrival.py:83-93 | the report built from that key meets the whole selection protocol |
| `DistributionFit.FindBestFitDistribution` | inter_arrival-miner/interarrival.py:19-93 | on the (optionally trimmed) sample: an empty sample yields nothing; an all-equal sample yields `fixed` with the common value; otherwise the first closest candidate among those whose fit and size-N sampling succeeded is returned, with N the sample count when absent or zero, and with as many parameters as that candidate has |
| `DistributionFit.SelectBest` | inter_arrival-miner/interarrival.py:42-93 | on a sample that is not all-equal, the candidate loop and the selection return a report that meets the selection protocol, with as many parameters as its candidate has |
| `InterArrival.IsStart` | inter_arrival-miner/interarrival.py:101 | definition: the event's lifecycle transition is `start`; `FirstStartIndex` states which event the inner loop picks with it |
| `InterArrival.FirstStartIndex` | inter_arrival-miner/interarrival.py:99-103 | the first event whose lifecycle is `start`, or None when the trace has none |
| `InterArrival.Contribution` | inter_arrival-miner/interarrival.py:99-103 | definition: a trace adds the timestamp of its first `start` event, or nothing; `FirstStartIndex` states which event that is |
| `InterArrival.StartTimes` | inter_arrival-miner/interarrival.py:97-103 | definition: the contributions of the traces in log order; `AtMostOneStartPerTrace`, `StartTimesConcat`, `StartTimesRemove` and `StartTimesIgnoreTraceOrder` characterize it |
| `InterArrival.Gaps` | inter_arrival-miner/interarrival.py:107-110 | definition: the differences in seconds of consecutive timestamps; `GapCount`, `GapsNonNegative` and `GapsTelescope` characterize it |
| `InterArrival.InterArrivalTimes` | inter_arrival-miner/interarrival.py:95-112 | definition: the gaps of the sorted start times; `ComputeInterArrivalTimes` computes it, `GapsSumToSpan` and `TraceOrderIrrelevant` characterize it |
| `InterArrival.ComputeInterArrivalTimes` | inter_arrival-miner/interarrival.py:95-112 | the loops compute exactly the gaps of the sorted first-start times |
| `InterArrival.AtMostOneStartPerTrace` | inter_arrival-miner/interarrival.py:99-103 | no more start times than traces: the inner loop stops at the first `start` |
| `InterArrival.StartTimesConcat` | inter_arrival-miner/interarrival.py:99-103 | traces contribute independently: the start times of a concatenated log are the concatenated start times |
| `InterArrival.StartTimesRemove` | inter_arrival-miner/interarrival.py:99-103 | removing one trace removes exactly its own contribution |
| `InterArrival.StartTimesIgnoreTraceOrder` | inter_arrival-miner/interarrival.py:99-103 | the start times collected from two logs with the same traces are the same multiset |
| `InterArrival.GapCount` | inter_arrival-miner/interarrival.py:107-110 | k start times give k−1 gaps, and none when k < 2 |
| `InterArrival.GapsNonNegative` | inter_arrival-miner/interarrival.py:105-110 | every gap is ≥ 0, because the times are sorted first |
| `InterArrival.GapsTelescope` | inter_arrival-miner/interarrival.py:107-110 | consecutive gaps sum to the last time minus the first |
| `InterArrival.SortedEnds` | inter_arrival-miner/interarrival.py:105 | after sorting, the first start time is the earliest and the last is the latest |
| `InterArrival.GapsSumToSpan` | inter_arrival-miner/interarrival.py:105-111 | the inter-arrival times sum to the latest collected start time minus the earliest |
| `InterArrival.TraceOrderIrrelevant` | inter_arrival-miner/interarrival.py:99-111 | reordering the traces does not change the inter-arrival times |
| `InterArrival.FindInterArrivalDistribution` | inter_arrival-miner/interarrival.py:114-116 | the result is the best fit of the inter-arrival times (no trimming, default N); there is none exactly when fewer than two traces have a `start` event |
| `Time.WeekdayOf` | resource-miner/resource_calendars.py:26-31 | definition of `dt.day_name()`: the weekday of a date counted from Thursday 1970-01-01; `Day`, `OnDay`, `CalendarOn`, `ScheduleOn` and `TimesOfDayMayCross` use it |
| `Time.Seconds` | inter_arrival-miner/interarrival.py:110 | definition of the epoch seconds behind `total_seconds()`: days times 86400 plus the time of day; `BeforeIsSecondsOrder` ties it to chronological order and `Gaps` takes differences of it |
| `Time.BeforeIsSecondsOrder` | inter_arrival-miner/interarrival.py:110 | chronological order agrees with the order of seconds since the epoch, so a later time gives a non-negative `total_seconds()` |
| `Time.Sort` | inter_arrival-miner/interarrival.py:105 | the result is sorted and a permutation of the input |
| `Time.SortedUnique` | inter_arrival-miner/interarrival.py:105 | two sorted permutations of the same timestamps are equal, so the sorted list depends only on the multiset |
| `Time.SortSameElements` | resource-miner/role_resource_calendars.py:19 | sorting keeps the length and exactly the same timestamps |
| `Time.Earliest` | resource-miner/resource_calendars.py:34 | pandas `min`: an element not after any other |
| `Time.Latest` | resource-miner/resource_calendars.py:34 | pandas `max`: an element not before any other |
| `Time.ExtremesIgnoreOrder` | resource-miner/role_resource_calendars.py:19-21 | `min`/`max` depend only on the elements, so sorting first does not change them |
| `Seqs.Distinct` | resource-miner/resource_calendars.py:31 | `unique()`: every element appears, nothing else does, with no repeats |
| `Seqs.DistinctFirstAppearance` | resource-miner/resource_calendars.py:31 | `unique()` keeps elements in order of first appearance |
| `RoleResource.ResourcesOf` | resource-miner/role_resource.py:8-12 | definition: the resources of the events with a given activity; `ResourcesOfStep` and `GroupResourcesByActivity` relate it to the dict the loop fills |
| `RoleResource.Join` | resource-miner/role_resource.py:18 | definition of `sep.join(parts)`: the parts in order with the separator between consecutive ones |
| `RoleResource.JoinsSet` | resource-miner/role_resource.py:18 | definition: the text is the join with `", "` of some listing of the set that has every element exactly once; `GetActivityResources` states it of every record |
| `RoleResource.Enumerate` | resource-miner/role_resource.py:18 | set iteration lists every element of the set exactly once, in some order |
| `RoleResource.ResourcesOfStep` | resource-miner/role_resource.py:12 | adding an event adds its resource to its own activity's set only |
| `RoleResource.GroupStep` | resource-miner/role_resource.py:8-12 | one `add` keeps the dict equal to the grouping of the events read so far, with keys in first-appearance order |
| `RoleResource.GroupOrderStep` | resource-miner/role_resource.py:8-12 | the dict keys after one more event are the distinct activities seen, in first-appearance order |
| `RoleResource.GroupValuesStep` | resource-miner/role_resource.py:12 | after one more event, every activity maps to the resources of exactly the events seen with that activity |
| `RoleResource.GroupResourcesByActivity` | resource-miner/role_resource.py:8-12 | the dict holds every activity of the log, in order of first appearance, mapped to exactly the resources of its events |
| `RoleResource.GetActivityResources` | resource-miner/role_resource.py:5-22 | one record per distinct activity, in first-appearance order; its `Resources` text joins exactly that activity's resource set with `", "`; an empty log gives no records (the copy at resource-miner/role_resource_calendars.py:30-47 is the same code) |
| `ResourceCalendars.TimesOf` | resource-miner/resource_calendars.py:11-15 | definition: the timestamps of a resource's events in log order; `TimesOfMembers` and `CollectTimestamps` characterize it |
| `ResourceCalendars.TimesOfMembers` | resource-miner/resource_calendars.py:11-15 | a resource's collected timestamps are exactly the timestamps of its events |
| `ResourceCalendars.CollectStep` | resource-miner/resource_calendars.py:11-15 | one `append` keeps the dict equal to the per-resource timestamps read so far, with keys in first-appearance order |
| `ResourceCalendars.CollectTimestamps` | resource-miner/resource_calendars.py:8-15 | the dict has one key per resource in order of first appearance, mapped to its timestamps in log order |
| `ResourceCalendars.OnDate` | resource-miner/resource_calendars.py:34 | the group of a date holds exactly the timestamps of that date |
| `ResourceCalendars.OnDay` | resource-miner/resource_calendars.py:37 | the group of a weekday holds exactly the timestamps on that weekday |
| `ResourceCalendars.MinMaxPerDayDate` | resource-miner/resource_calendars.py:34 | the first stage has one row per distinct date of the timestamps, in first-appearance order; each row is labelled with its date's weekday and holds the earliest and latest timestamp of that date |
| `ResourceCalendars.RowOf` | resource-miner/resource_calendars.py:34 | every timestamp has a row for its date, labelled with its weekday, spanning that date's earliest and latest timestamp |
| `ResourceCalendars.RowsOn` | resource-miner/resource_calendars.py:37 | the rows grouped under a weekday are exactly those labelled with it |
| `ResourceCalendars.RowDaysAreDays` | resource-miner/resource_calendars.py:34-37 | the weekdays labelling rows are exactly the weekdays of the timestamps |
| `ResourceCalendars.MinMaxPerDay` | resource-miner/resource_calendars.py:37 | definition of the second stage: per weekday, the min of the row mins and the max of the row maxes; `TwoStageCollapse` states what it equals |
| `ResourceCalendars.StageTwoBrackets` | resource-miner/resource_calendars.py:34-37 | every timestamp on a weekday lies between that weekday's min of mins and max of maxes |
| `ResourceCalendars.TwoStageCollapse` | resource-miner/resource_calendars.py:34-37 | min of the per-date mins and max of the per-date maxes equal the earliest and latest timestamp on that weekday, and the first is not after the second |
| `ResourceCalendars.TimesOfDay` | resource-miner/resource_calendars.py:40-44 | definition: each weekday's span as times of day; `CalendarOn` states its values |
| `ResourceCalendars.ResourceCalendar` | resource-miner/resource_calendars.py:21-50 | definition of one resource's entry; `CalendarOn` and `CalendarProperties` characterize it |
| `ResourceCalendars.CalendarOn` | resource-miner/resource_calendars.py:31-44 | a weekday is a key of `weekly_times` iff the resource worked on it, and it maps to the times of day of the earliest and latest timestamp on it |
| `ResourceCalendars.CalendarProperties` | resource-miner/resource_calendars.py:19-50 | `name` is the resource; `workdays` are its weekdays, each once, in first-appearance order; `weekly_times` keys are the workdays, each mapped to the times of day of its earliest and latest timestamp, which may come from different dates |
| `ResourceCalendars.TimesOfDayMayCross` | resource-miner/resource_calendars.py:33-43 | min and max are not taken from the same date: two Thursdays give a reported `min` of 13:53:20 after a `max` of 02:46:40 |
| `ResourceCalendars.CalendarsOf` | resource-miner/resource_calendars.py:19-50 | the loop over the dict emits one calendar per key, in key order, each from that key's timestamps |
| `ResourceCalendars.StructuredResourceCalendar` | resource-miner/resource_calendars.py:7-52 | one calendar per distinct resource, in first-appearance order, each computed from exactly that resource's timestamps |
| `RoleResourceCalendars.WeeklyTimes` | resource-miner/role_resource_calendars.py:21-22 | the keys are exactly the weekdays of the timestamps |
| `RoleResourceCalendars.SortedSchedule` | resource-miner/role_resource_calendars.py:18-26 | definition of one resource's value; `ScheduleOn`, `ScheduleProperties`, `WorkdaysChronological`, `SameWorkdays` and `SameWeeklyTimes` characterize it |
| `RoleResourceCalendars.FirstOnDayIsEarliest` | resource-miner/role_resource_calendars.py:19-21 | in the sorted series, the first timestamp of a weekday is its earliest |
| `RoleResourceCalendars.SortKeepsDays` | resource-miner/role_resource_calendars.py:19-22 | sorting keeps the weekdays and each weekday's earliest and latest timestamp |
| `RoleResourceCalendars.ScheduleOn` | resource-miner/role_resource_calendars.py:19-22 | a weekday is a workday iff it is a `weekly_times` key iff the resource worked on it; it maps to the times of day of the earliest and latest timestamp on it |
| `RoleResourceCalendars.ScheduleProperties` | resource-miner/role_resource_calendars.py:19-22 | workdays without repeats, `weekly_times` keys equal to the workdays, each mapped to the times of day of its earliest and latest timestamp, which may come from different dates |
| `RoleResourceCalendars.WorkdaysChronological` | resource-miner/role_resource_calendars.py:19-20 | workdays are ordered by first occurrence in time: each one's earliest timestamp is strictly before that of every later workday |
| `RoleResourceCalendars.SameWorkdays` | resource-miner/role_resource_calendars.py:19-20 | the sort-first variant reports the same set of workdays as the two-stage variant of `resource_calendars.py` (only their order differs) |
| `RoleResourceCalendars.SameWeeklyTimes` | resource-miner/role_resource_calendars.py:21-22 | the sort-first variant reports exactly the same weekly times as the two-stage variant of `resource_calendars.py` |
| `RoleResourceCalendars.SchedulesOf` | resource-miner/role_resource_calendars.py:16-26 | the loop over the collected dict stores, under each of its keys and no other, the schedule of that key's timestamps |
| `RoleResourceCalendars.StructuredResourceCalendar` | resource-miner/role_resource_calendars.py:7-28 | the dict's keys are the distinct resources of the log in order of first appearance (the order `json.dumps` would emit), each mapped to the schedule of exactly that resource's timestamps |

## Left out

- Reading XES files, the Flask endpoints and all other I/O are left out. The model starts from a parsed log.
- Floating point is left out. Observations and distances are `real`, and NaN and infinities do not arise.
- What `fit`, `rvs`, `percentile` and `wasserstein_distance` compute is not modelled; they are supplied as the `Library` value. Randomness in `rvs` is therefore a fixed function of its inputs.
- The warning suppression around the lognormal fit and the `print` in the exception handler are left out; neither changes the result.
- A negative `N` is not modelled. The sample count is a natural number, or absent.
- An event missing `lifecycle:transition`, `org:resource`, `concept:name` or `time:timestamp` raises `KeyError` in the source. The model's events always carry all four.
- `InterArrival.ComputeInterArrivalTimes`: gaps are whole seconds, because sub-second precision of timestamps is not modelled.
- `DistributionFit.Prepared`: the outlier mask models a numpy array sample. A plain list, which is what `find_inter_arrival_distribution` passes, would make the boolean-mask indexing `observed_values[mask]` raise `TypeError`, but that caller never asks for trimming.
- Time zones are not modelled. `tz_localize(None)` in `resource_calendars.py` is the identity on these timestamps.
- The string forms are not modelled: day names from `day_name()`, `isoformat()` times, and the JSON and DataFrame layout. The `DataFrame(...).to_dict(orient='records')` round trip is the identity on the records.
- The key order of `weekly_times` is not modelled, because it comes from pandas groupby sorting. It is a `map`. For the same reason the row order of the first stage of `resource_calendars.py:34` is not modelled: pandas sorts those rows by (day name, date), while `ResourceCalendars.MinMaxPerDayDate` orders them by each date's first appearance. The second stage takes only the min and the max of each weekday's rows, so nothing downstream depends on that order.
- The `pd.notna` guards at `resource_calendars.py:42-43` are not modelled: every group in the model is non-empty, so min and max always exist.
- Sorting is a pure function on sequences. The in-place `list.sort()` is modelled by reassignment.
- The duplicate `get_activity_resources` at `resource-miner/role_resource_calendars.py:30-47` is the same code as `role_resource.py:5-22`. It is modelled once, by `RoleResource.GetActivityResources`.
- The commented-out first version of `structured_resource_calendar` (`resource_calendars.py:65-87`) is not modelled.
