# ZTM virtual monitor: loading a stop's timetable and finding its next trip

This project models the core of `ZTMVirtualMonitorAPI`, a small client for the
Poznań public transport authority (ZTM). The client downloads the GTFS Schedule
archive once. From it, it keeps the timetable of one configured stop (stop code
`MOGI42`):
- the stop's `stop_id`;
- the stop's rows of `stop_times.txt`, sorted by arrival time;
- the rows of `trips.txt` for trips that call there;
- the whole of `calendar.txt`.

From those tables it answers "which trip arrives next?" for the current weekday
and time of day, optionally skipping a list of trip ids.

The model has these parts:

- `Gtfs` (gtfs.dfy): the four tables as datatypes, and the table preparation
  done at load time. That is the stop-code lookup, the selection of the stop's
  stop-times, the arrival-time sort, and the selection of the trips serving the
  stop.
- `Lexicographic` (lexicographic.dfy): Python's `<` on strings, which pandas and
  numpy use to order `arrival_time` and to compare it with the clock reading. It
  is proved a strict total order. For zero-padded `HH:MM:SS` text it is proved
  to agree with the number of seconds, including GTFS hours past 23.
- `SearchSorted` (search_sorted.dfy): `np.searchsorted(..., side='left')`. It is
  given as a reference scan and as a binary search proved equal to it.
- `NextTrip` (next_trip.dfy): the next-trip lookup as a function of the loaded
  tables, the weekday, the clock reading and `ignored_trips`. It comes in two
  versions:
  - `NextTripAsWritten`, as the source computes it;
  - `NextDeparture`, as it is evidently meant to behave.

  The module also states what "the next departure" is (`IsNextDeparture`),
  proves when the two versions agree, and pins both down on small candidate
  sets (the row the search picks, the wrap to the first row, the stored row
  the lookup as written reads instead).
- `Monitor` (virtual_monitor.dfy): the monitor object as a class. Its fields are
  set in place by the loader, and its lookup method is proved equal to
  `NextTripAsWritten`.
- `Scenarios` (scenarios.dfy): a three-trip timetable. It pins the lookup down on
  concrete clock readings and exhibits each of the findings below.

Results are `Result`/`Outcome` values (wrappers.dfy). Where the source raises an
exception, the model returns a `Failure` naming the case.

## Model

| member | source | states |
|---|---|---|
| Lexicographic.Less | ztm_virtual_monitor_api.py:81 | Python's `<` on the arrival-time text: a proper prefix sorts first, and no text sorts before itself |
| Lexicographic.LessAtFirstDifference | ztm_virtual_monitor_api.py:52 | the order is decided by the code points at the first position where the texts differ, or, when one is a proper prefix of the other, by length |
| Lexicographic.LessIrreflexive | ztm_virtual_monitor_api.py:52 | no arrival time sorts strictly before itself |
| Lexicographic.LessTransitive | ztm_virtual_monitor_api.py:52 | the text order used to sort arrival times is transitive |
| Lexicographic.LessTrichotomy | ztm_virtual_monitor_api.py:52 | any two arrival times are equal or ordered one way, so the sort is total |
| Lexicographic.LessAsymmetric | ztm_virtual_monitor_api.py:52 | two arrival times are never each before the other |
| Lexicographic.AtMostThenLess | ztm_virtual_monitor_api.py:81 | a <= b < c gives a < c, which the bisection of the search relies on |
| Lexicographic.AtMostTransitive | ztm_virtual_monitor_api.py:81 | a <= b <= c gives a <= c, so an ascending column stays at least `v` past any entry at least `v` |
| Lexicographic.LessAt | ztm_virtual_monitor_api.py:81 | once two texts agree up to position k, their order is decided at k or after it |
| Lexicographic.LessMatchesSeconds | ztm_virtual_monitor_api.py:81 | for zero-padded `HH:MM:SS` text (hours may exceed 23), text order holds exactly when the first time has fewer seconds |
| Seqs.Filter | ztm_virtual_monitor_api.py:71-78 | a boolean-mask selection keeps exactly the rows satisfying the mask, each with its multiplicity, and never adds rows |
| Seqs.FilterKeepingAll | ztm_virtual_monitor_api.py:76-78 | a mask that selects every row leaves the table unchanged |
| Gtfs.ArrivalTimes | ztm_virtual_monitor_api.py:81 | the `arrival_time` column has one entry per row, in row order |
| Gtfs.SortedColumn | ztm_virtual_monitor_api.py:81 | a table sorted by arrival time gives an ascending `arrival_time` column, which is what the search requires |
| Gtfs.PrependSorted | ztm_virtual_monitor_api.py:52 | a row no later than every row of a sorted table can be put in front of it |
| Gtfs.InsertByArrival | ztm_virtual_monitor_api.py:52 | inserting a row into a sorted table gives a sorted table with that row added |
| Gtfs.SortByArrival | ztm_virtual_monitor_api.py:52 | `sort_values(by=['arrival_time'])` yields a table ascending by arrival time that is a permutation of its input |
| Gtfs.FilterKeepsArrivalOrder | ztm_virtual_monitor_api.py:76-78 | selecting rows of a sorted table leaves it sorted |
| Gtfs.FirstStopWithCode | ztm_virtual_monitor_api.py:41-45 | None exactly when no stop has the code; otherwise the first stop with that code |
| Gtfs.AtStop | ztm_virtual_monitor_api.py:50 | the stop-times at a stop: every row with that `stop_id`, each as often as in the file, and no other |
| Gtfs.TripIdsOf | ztm_virtual_monitor_api.py:58 | the `trip_id` values of the stop's stop-times: each row's id, and no other |
| Gtfs.TripsServing | ztm_virtual_monitor_api.py:58 | a trip row is kept, with its multiplicity, exactly when some stop-time at the stop has its `trip_id` |
| SearchSorted.InsertionPoint | ztm_virtual_monitor_api.py:81 | the position where the clock reading would be inserted on the left: every earlier entry is strictly before it, and the entry there (if any) is not |
| SearchSorted.InsertionPointSplits | ztm_virtual_monitor_api.py:81 | on an ascending column, every entry from the insertion point on is at least the value searched |
| SearchSorted.SearchSortedLeft | ztm_virtual_monitor_api.py:81 | binary search over an ascending column returns the left insertion point: entries before it are smaller and those from it on are not |
| NextTrip.RunningOn | ztm_virtual_monitor_api.py:71-72 | the calendar rows whose column for the weekday is 1; empty exactly when no row runs that day |
| NextTrip.ServiceIdsOf | ztm_virtual_monitor_api.py:74 | the `service_id` values of the weekday's calendar rows: each row's id, and no other |
| NextTrip.TripsOfServices | ztm_virtual_monitor_api.py:74-75 | the trip rows whose `service_id` runs on the weekday |
| NextTrip.TripIdsOfTrips | ztm_virtual_monitor_api.py:76 | the `trip_id` values of the weekday's trip rows: each row's id, and no other |
| NextTrip.OnTrips | ztm_virtual_monitor_api.py:76 | the stored stop-times whose trip is one of the weekday's trips, with their multiplicity |
| NextTrip.WithoutIgnored | ztm_virtual_monitor_api.py:78 | the stop-times whose `trip_id` is not in `ignored_trips`, with their multiplicity |
| NextTrip.Candidates | ztm_virtual_monitor_api.py:71-79 | the filtered view holds exactly the stored rows of trips that run on the weekday and are not ignored, each as often as stored |
| NextTrip.CandidatesSorted | ztm_virtual_monitor_api.py:76-81 | the filtered view of a sorted table is sorted, as `searchsorted` requires |
| NextTrip.SearchPicksNextDeparture | ztm_virtual_monitor_api.py:81-83 | in a sorted non-empty table, the row at the left insertion point (row 0 past the end) is the next departure: the earliest at or after the clock reading, or the earliest of all when none is |
| NextTrip.Excluded | ztm_virtual_monitor_api.py:66-78 | the trips the lookup is meant to skip: exactly the listed ones, and none for the default `None` |
| NextTrip.NextDeparture | ztm_virtual_monitor_api.py:66-85 | the intended lookup: fails when no service runs that day; on a running day it succeeds exactly when a candidate is left, and its only failure is "no trips available"; a success is the next departure among the candidates, with `None` read as "ignore nothing" |
| NextTrip.NextTripAsWritten | ztm_virtual_monitor_api.py:66-85 | the lookup as written: fails when no service runs that day; with a service, fails on `ignored_trips=None` and otherwise returns a stored row |
| NextTrip.AsWrittenMatchesIntentWhenNothingFiltered | ztm_virtual_monitor_api.py:76-85 | when every stored trip runs that day and none is ignored, the lookup as written equals the intended one and returns the next departure among all stored rows |
| NextTrip.CandidatesWhenNothingFiltered | ztm_virtual_monitor_api.py:71-79 | when every stored trip runs that day and none is ignored, the filtered view is the whole stored table |
| NextTrip.IntendedOverWholeTable | ztm_virtual_monitor_api.py:76-85 | with the whole table as candidates on a running day, the intended lookup returns the row at the left insertion point, or row 0 past the end |
| NextTrip.AsWrittenOverWholeTable | ztm_virtual_monitor_api.py:76-85 | with the whole table as candidates on a running day, the lookup as written returns the row at the left insertion point, or row 0 past the end |
| NextTrip.RunningTripIsCandidateTrip | ztm_virtual_monitor_api.py:71-76 | a trip whose service runs that day passes the weekday filters, and the weekday has a service |
| Monitor.VirtualMonitor.constructor | ztm_virtual_monitor_api.py:15-26 | a new monitor has the configured stop code, no stop id, and empty tables |
| Monitor.VirtualMonitor.LoadInitialGtfs | ztm_virtual_monitor_api.py:39-61 | unknown stop code: fails with nothing changed. Stop with no stop-times: fails, keeping the stop id and an empty table. Otherwise the monitor becomes valid, holding a sorted permutation of the stop's rows, the trips serving them, and the calendar |
| Monitor.VirtualMonitor.Open | ztm_virtual_monitor_api.py:15-28 | creating a monitor fails exactly when the stop code is unknown or the stop has no stop-times, with the error naming which (the unknown code, or the stop id without stop-times); otherwise the new monitor is valid and holds the first matching stop's id, a permutation of that stop's stop-times, the trips serving them, and the calendar |
| Monitor.VirtualMonitor.GetNextTrip | ztm_virtual_monitor_api.py:66-85 | the filter, search and wrap steps on a loaded monitor compute exactly `NextTripAsWritten` |
| Scenarios.TableSorted | ztm_virtual_monitor_api.py:52 | the example tables are ascending by arrival time, including a post-midnight row `25:10:00` after `08:30:00` |
| Scenarios.AllRunOnMonday | ztm_virtual_monitor_api.py:71-76 | every example trip runs on a Monday |
| Scenarios.NextAtTenPastEightIsB | ztm_virtual_monitor_api.py:81 | at 08:10, among candidates that include B, the next departure is B (08:15) |
| NextTrip.MiddleIsNext | ztm_virtual_monitor_api.py:81 | among candidates from rows a, b, c with a before the clock reading, b at or after it and c after b, the next departure is b |
| NextTrip.FirstIsNextWhenAllEarlier | ztm_virtual_monitor_api.py:82-83 | among candidates from rows a, b, c all before the clock reading, with a the earliest, the next departure wraps to a |
| NextTrip.OnlyLaterIsNext | ztm_virtual_monitor_api.py:81 | among candidates from rows a, b, c before the clock reading and d at or after it, the next departure is d |
| Scenarios.AsWrittenPicksMiddle | ztm_virtual_monitor_api.py:76-85 | on three sorted running rows with nothing ignored, the lookup as written returns b when a is before the clock reading and b is not |
| Scenarios.AsWrittenWrapsToFirst | ztm_virtual_monitor_api.py:82-83 | on three sorted running rows all before the clock reading, the lookup as written wraps to the first |
| Scenarios.AsWrittenPicksLast | ztm_virtual_monitor_api.py:81 | on four sorted running rows with only the last at or after the clock reading, the lookup as written returns the last |
| Scenarios.MorningLookup | ztm_virtual_monitor_api.py:66-85 | on a Monday at 08:10 with nothing ignored, the lookup returns B |
| Scenarios.WraparoundLookup | ztm_virtual_monitor_api.py:82-83 | on a Monday at 23:55 with nothing ignored, the lookup wraps to A |
| Scenarios.AfterMidnightLookup | ztm_virtual_monitor_api.py:81 | on a Monday at 23:55, a trip listed at `25:10:00` is returned |
| Scenarios.ServiceRunsOnMonday | ztm_virtual_monitor_api.py:71-72 | the example calendar has a service on Mondays |
| Scenarios.CandidatesIgnoringA | ztm_virtual_monitor_api.py:78 | ignoring A leaves a view with B and without A |
| Scenarios.CandidatesIgnoringBAndC | ztm_virtual_monitor_api.py:78 | ignoring B and C leaves exactly `[A]` |
| NextTrip.AsWrittenAtFront | ztm_virtual_monitor_api.py:81-85 | when the first candidate is not before the clock reading, the lookup as written returns stored row 0, whatever the candidates are |
| NextTrip.AsWrittenPastSingleCandidate | ztm_virtual_monitor_api.py:81-85 | when one candidate is left and it is before the clock reading, the search gives 1 and the lookup as written returns stored row 1 rather than wrapping |
| Scenarios.IntendedAtTenPastEight | ztm_virtual_monitor_api.py:81 | when the candidates come from the example table and include B, the intended lookup at 08:10 returns B |
| Scenarios.IntendedAtFiveToMidnight | ztm_virtual_monitor_api.py:82-83 | when A is the only candidate, the intended lookup at 23:55 wraps to A |
| Scenarios.FilteredIndexReadsStoredTable | ztm_virtual_monitor_api.py:85 | ignoring A at 08:10: the lookup as written returns the ignored A; the intended lookup returns B |
| Scenarios.WrapTestUsesStoredLength | ztm_virtual_monitor_api.py:82 | ignoring B and C at 23:55: the lookup as written returns the ignored B; the intended lookup wraps to A |
| Scenarios.DefaultIgnoredTripsFails | ztm_virtual_monitor_api.py:78 | with the default `ignored_trips=None` on a running weekday, the lookup as written fails; the intended lookup returns B at 08:10 |

## Left out

- Downloading the GTFS archive, unzipping it into a temporary directory, and
  deleting that directory (ztm_virtual_monitor_api.py:31-37,63-64). The parsed
  rows of `stops.txt`, `stop_times.txt`, `trips.txt` and `calendar.txt` are
  parameters of `LoadInitialGtfs`.
- CSV parsing and type inference by `pd.read_csv`. Columns are modelled as they
  are used:
  - ids and times as text;
  - `stop_sequence` and the weekday flags as integers;
  - columns the monitor never reads (calendar `start_date`/`end_date`, shapes,
    and so on) are dropped.
  A file whose `stop_code` column pandas would read as numbers is not modelled.
- `datetime.now()` and `strftime` (ztm_virtual_monitor_api.py:67-69). The weekday
  and the `HH:MM:SS` clock text are parameters of the lookup.
- Logging, the `click` command line and `main` (ztm_virtual_monitor_api.py:17,102-126).
- `get_virtual_monitor` (ztm_virtual_monitor_api.py:88-97): it downloads and
  prints the GTFS Realtime feed (network, protobuf and console I/O), and then
  calls the lookup with three fixed trip ids, discarding the result. That call
  is an instance of `GetNextTrip` with `Some(ids)`.
- `reset_index(drop=True)` (ztm_virtual_monitor_api.py:52,58,79). Tables are
  sequences, so positions are always 0..n-1.
- The result is the whole pandas row (a `Series`). It is modelled as the
  `StopTime` value of that row.
- Gtfs.SortByArrival: pandas' default quicksort is not stable, so the model
  promises only "ascending and a permutation". It does not fix the order of
  rows with equal arrival times. `LoadInitialGtfs` states the stored table only
  up to that (as a multiset).
- Lexicographic.LessMatchesSeconds: the agreement between text order and time
  order is proved only for zero-padded `HH:MM:SS` text. A time written without
  a leading zero ("8:05:00") sorts by text, and the model follows the text
  order, as the source does.
- NextTrip.NextTripAsWritten: requires a non-empty stored table. The loader
  refuses to build a monitor without one, so the lookup is never reached with
  an empty table.
- The object's private attributes that only feed I/O (the two URLs and the
  temporary directory name) are not fields of the class.

## Findings

| source | as written | input that shows it | evidently intended | confidence | as-written member | corrected member |
|---|---|---|---|---|---|---|
| ztm_virtual_monitor_api.py:85 | the index found in the filtered view is used to read the stored, unfiltered table | stored trips A 08:00, B 08:15, C 08:30, all running; `ignored_trips=['A']`; time 08:10: the search finds index 0 in `[B, C]`, and stored row 0 is the ignored A, which has already left | return the row of the filtered view, B | high, not executed | Scenarios.FilteredIndexReadsStoredTable | NextTrip.NextDeparture |
| ztm_virtual_monitor_api.py:82 | the wrap-around test compares the filtered view's index with the stored table's length | same table; `ignored_trips=['B','C']`; time 23:55: the index is 1, past the end of `[A]` but within the stored table, so stored row 1 (the ignored B) is returned | wrap to the first row of the filtered view, A | high, not executed | Scenarios.WrapTestUsesStoredLength | NextTrip.NextDeparture |
| ztm_virtual_monitor_api.py:78 | the default `ignored_trips=None` is passed to `isin`, which refuses a non-list-like argument | any weekday with a running service, `ignored_trips` omitted | read the default as "ignore no trips" | high, not executed | Scenarios.DefaultIgnoredTripsFails | NextTrip.NextDeparture |
