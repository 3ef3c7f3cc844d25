/**
 * Looking up the next departure at the monitored stop: the service-day
 * filter, the candidate stop-times, the search and the wraparound, both
 * as the lookup is written and as it is evidently meant to behave.
 */
module NextTrip {
  import opened Wrappers
  import opened Seqs
  import opened Lexicographic
  import opened Gtfs
  import opened SearchSorted

  datatype LookupError =
    | NoServiceForWeekday      // no calendar row runs on the weekday
    | IgnoredTripsNotListLike  // `isin(None)` raises TypeError
    | NoTripsAvailable         // every scheduled trip was filtered out

  // ---- The service-day filter -------------------------------------------

  /** The calendar rows whose column for `day` holds 1. */
  function RunningOn(calendar: seq<CalendarEntry>, day: Weekday): (r: seq<CalendarEntry>)
    ensures forall c :: c in r <==> c in calendar && c.Flag(day) == 1
    ensures |r| == 0 <==> forall c :: c in calendar ==> c.Flag(day) != 1
  {
    Filter(calendar, (c: CalendarEntry) => c.Flag(day) == 1)
  }

  /** The `service_id` values of the given calendar rows, and no other. */
  function ServiceIdsOf(rows: seq<CalendarEntry>): (r: set<ServiceId>)
    ensures forall c :: c in rows ==> c.serviceId in r
    ensures forall id :: id in r ==> exists c :: c in rows && c.serviceId == id
  {
    set c | c in rows :: c.serviceId
  }

  /** The trips whose `service_id` is one of `services`. */
  function TripsOfServices(trips: seq<Trip>, services: set<ServiceId>): (r: seq<Trip>)
    ensures forall t :: t in r <==> t in trips && t.serviceId in services
  {
    Filter(trips, (t: Trip) => t.serviceId in services)
  }

  /** The `trip_id` values of the given trip rows, and no other. */
  function TripIdsOfTrips(trips: seq<Trip>): (r: set<TripId>)
    ensures forall t :: t in trips ==> t.tripId in r
    ensures forall id :: id in r ==> exists t :: t in trips && t.tripId == id
  {
    set t | t in trips :: t.tripId
  }

  /** The stop-times whose `trip_id` is one of `ids`. */
  function OnTrips(stopTimes: seq<StopTime>, ids: set<TripId>): (r: seq<StopTime>)
    ensures forall x :: multiset(r)[x] == if x.tripId in ids then multiset(stopTimes)[x] else 0
    ensures forall x :: x in r <==> x in stopTimes && x.tripId in ids
  {
    Filter(stopTimes, (st: StopTime) => st.tripId in ids)
  }

  /** The stop-times whose `trip_id` is not listed in `ignored`. */
  function WithoutIgnored(stopTimes: seq<StopTime>, ignored: seq<TripId>): (r: seq<StopTime>)
    ensures forall x :: multiset(r)[x] == if x.tripId !in ignored then multiset(stopTimes)[x] else 0
    ensures forall x :: x in r <==> x in stopTimes && x.tripId !in ignored
  {
    Filter(stopTimes, (st: StopTime) => st.tripId !in ignored)
  }

  /** Some trip row with this id belongs to a service that runs on `day`. */
  ghost predicate TripRunsOn(tripId: TripId, trips: seq<Trip>, calendar: seq<CalendarEntry>, day: Weekday)
  {
    exists t, c :: t in trips && c in calendar && t.tripId == tripId && c.serviceId == t.serviceId && c.Flag(day) == 1
  }

  /**
   * The filtered view the search runs over: exactly the stored stop-times
   * whose trip runs on `day` and is not ignored, each as often as stored.
   */
  function Candidates(stopTimes: seq<StopTime>, trips: seq<Trip>, calendar: seq<CalendarEntry>,
                      day: Weekday, ignored: seq<TripId>): (r: seq<StopTime>)
    ensures |r| <= |stopTimes|
    ensures forall x :: multiset(r)[x] ==
                        if x.tripId !in ignored && TripRunsOn(x.tripId, trips, calendar, day)
                        then multiset(stopTimes)[x] else 0
    ensures forall x :: x in r <==> x in stopTimes && x.tripId !in ignored && TripRunsOn(x.tripId, trips, calendar, day)
  {
    var services := ServiceIdsOf(RunningOn(calendar, day));
    var tripIds := TripIdsOfTrips(TripsOfServices(trips, services));
    assert forall id :: id in tripIds <==> TripRunsOn(id, trips, calendar, day);
    WithoutIgnored(OnTrips(stopTimes, tripIds), ignored)
  }

  /** Filtering does not reorder: the candidates keep the stored ascending order. */
  lemma CandidatesSorted(stopTimes: seq<StopTime>, trips: seq<Trip>, calendar: seq<CalendarEntry>,
                         day: Weekday, ignored: seq<TripId>)
    requires SortedByArrival(stopTimes)
    ensures SortedByArrival(Candidates(stopTimes, trips, calendar, day, ignored))
  {
    var services := ServiceIdsOf(RunningOn(calendar, day));
    var tripIds := TripIdsOfTrips(TripsOfServices(trips, services));
    FilterKeepsArrivalOrder(stopTimes, (st: StopTime) => st.tripId in tripIds);
    FilterKeepsArrivalOrder(OnTrips(stopTimes, tripIds), (st: StopTime) => st.tripId !in ignored);
  }

  // ---- The departure the lookup is meant to return ----------------------

  /**
   * `x` is the next departure among `cands` at clock reading `now`: the
   * earliest one at or after `now`, or, when every candidate is before
   * `now`, the earliest one of all (the first departure of the next
   * service day).
   */
  ghost predicate IsNextDeparture(cands: seq<StopTime>, now: string, x: StopTime)
  {
    && x in cands
    && if exists y :: y in cands && !Less(y.arrivalTime, now) then
         && !Less(x.arrivalTime, now)
         && forall y :: y in cands && !Less(y.arrivalTime, now) ==> !Less(y.arrivalTime, x.arrivalTime)
       else
         forall y :: y in cands ==> !Less(y.arrivalTime, x.arrivalTime)
  }

  /** The row the leftmost search picks in a sorted table, wrapped to row 0 past the end. */
  lemma {:induction false} SearchPicksNextDeparture(f: seq<StopTime>, now: string)
    requires |f| > 0 && SortedByArrival(f)
    ensures var i := InsertionPoint(ArrivalTimes(f), now);
            IsNextDeparture(f, now, f[if i < |f| then i else 0])
  {
    var ts := ArrivalTimes(f);
    var i := InsertionPoint(ts, now);
    SortedColumn(f);
    InsertionPointSplits(ts, now);
    if i < |f| {
      forall y | y in f && !Less(y.arrivalTime, now) ensures !Less(y.arrivalTime, f[i].arrivalTime) {
        var k :| 0 <= k < |f| && f[k] == y;
        if k == i {
          LessIrreflexive(y.arrivalTime);
        }
      }
    } else {
      forall y | y in f ensures !Less(y.arrivalTime, f[0].arrivalTime) {
        var k :| 0 <= k < |f| && f[k] == y;
        if k == 0 {
          LessIrreflexive(y.arrivalTime);
        }
      }
      assert !exists y :: y in f && !Less(y.arrivalTime, now);
    }
  }

  /** The trips excluded by an `ignored_trips` argument, the default `None` read as none. */
  function Excluded(ignored: Option<seq<TripId>>): (r: seq<TripId>)
    ensures ignored.None? ==> r == []
    ensures forall id :: id in r <==> ignored.Some? && id in ignored.value
  {
    match ignored
    case None => []
    case Some(ids) => ids
  }

  /**
   * The lookup as it is evidently meant to behave: search the filtered
   * view and return a row OF THAT VIEW, wrapping to its first row past
   * its end, fail when nothing is left, and read the default `None` as
   * "ignore no trips".
   */
  function NextDeparture(stopTimes: seq<StopTime>, trips: seq<Trip>, calendar: seq<CalendarEntry>,
                         day: Weekday, now: string, ignored: Option<seq<TripId>>): (r: Result<StopTime, LookupError>)
    requires SortedByArrival(stopTimes)
    ensures (forall c :: c in calendar ==> c.Flag(day) != 1) ==> r == Failure(NoServiceForWeekday)
    ensures (exists c :: c in calendar && c.Flag(day) == 1) ==>
              && (r.Success? <==> Candidates(stopTimes, trips, calendar, day, Excluded(ignored)) != [])
              && (r.Failure? ==> r.error == NoTripsAvailable)
    ensures r.Success? ==> IsNextDeparture(Candidates(stopTimes, trips, calendar, day, Excluded(ignored)), now, r.value)
  {
    if |RunningOn(calendar, day)| == 0 then Failure(NoServiceForWeekday)
    else
      var f := Candidates(stopTimes, trips, calendar, day, Excluded(ignored));
      if |f| == 0 then Failure(NoTripsAvailable)
      else
        CandidatesSorted(stopTimes, trips, calendar, day, Excluded(ignored));
        SearchPicksNextDeparture(f, now);
        var i := InsertionPoint(ArrivalTimes(f), now);
        Success(f[if i < |f| then i else 0])
  }

  // ---- The lookup as written ----------------------------------------------

  /**
   * The lookup as the source writes it: the index found in the filtered
   * view is compared with the length of the STORED table and then used to
   * index the STORED table; `ignored = None` fails once a service runs.
   */
  function NextTripAsWritten(stopTimes: seq<StopTime>, trips: seq<Trip>, calendar: seq<CalendarEntry>,
                             day: Weekday, now: string, ignored: Option<seq<TripId>>): (r: Result<StopTime, LookupError>)
    requires |stopTimes| > 0
    ensures (forall c :: c in calendar ==> c.Flag(day) != 1) ==> r == Failure(NoServiceForWeekday)
    ensures (exists c :: c in calendar && c.Flag(day) == 1) && ignored.None? ==> r == Failure(IgnoredTripsNotListLike)
    ensures (exists c :: c in calendar && c.Flag(day) == 1) && ignored.Some? ==> r.Success? && r.value in stopTimes
  {
    if |RunningOn(calendar, day)| == 0 then Failure(NoServiceForWeekday)
    else if ignored.None? then Failure(IgnoredTripsNotListLike)
    else
      var f := Candidates(stopTimes, trips, calendar, day, ignored.value);
      var i := InsertionPoint(ArrivalTimes(f), now);
      Success(stopTimes[if i > |stopTimes| - 1 then 0 else i])
  }

  /** On a running weekday with a list of ignored trips, the lookup as written reads the stored row at the search index. */
  lemma AsWrittenReadsSearchIndex(stopTimes: seq<StopTime>, trips: seq<Trip>, calendar: seq<CalendarEntry>,
                                  day: Weekday, now: string, ignored: seq<TripId>, index: nat)
    requires |stopTimes| > 0 && |RunningOn(calendar, day)| > 0
    requires index == InsertionPoint(ArrivalTimes(Candidates(stopTimes, trips, calendar, day, ignored)), now)
    ensures NextTripAsWritten(stopTimes, trips, calendar, day, now, Some(ignored))
         == Success(stopTimes[if index > |stopTimes| - 1 then 0 else index])
  {
  }

  /**
   * When no stored row is filtered out (every trip runs on the weekday and
   * none is ignored) the lookup as written returns the intended departure:
   * the first stored row at or after `now`, or row 0 when there is none.
   */
  lemma AsWrittenMatchesIntentWhenNothingFiltered(
    stopTimes: seq<StopTime>, trips: seq<Trip>, calendar: seq<CalendarEntry>,
    day: Weekday, now: string, ignored: seq<TripId>)
    requires |stopTimes| > 0 && SortedByArrival(stopTimes)
    requires forall x :: x in stopTimes ==> x.tripId !in ignored && TripRunsOn(x.tripId, trips, calendar, day)
    ensures NextTripAsWritten(stopTimes, trips, calendar, day, now, Some(ignored))
         == NextDeparture(stopTimes, trips, calendar, day, now, Some(ignored))
    ensures NextTripAsWritten(stopTimes, trips, calendar, day, now, Some(ignored)).Success?
    ensures IsNextDeparture(stopTimes, now, NextTripAsWritten(stopTimes, trips, calendar, day, now, Some(ignored)).value)
  {
    RunningTripIsCandidateTrip(stopTimes[0].tripId, trips, calendar, day);
    SearchPicksNextDeparture(stopTimes, now);
    CandidatesWhenNothingFiltered(stopTimes, trips, calendar, day, Excluded(Some(ignored)));
    IntendedOverWholeTable(stopTimes, trips, calendar, day, now, Some(ignored));
    CandidatesWhenNothingFiltered(stopTimes, trips, calendar, day, ignored);
    AsWrittenOverWholeTable(stopTimes, trips, calendar, day, now, ignored);
  }

  /** With the whole table as candidates, the intended lookup returns the row the search picks. */
  lemma IntendedOverWholeTable(
    stopTimes: seq<StopTime>, trips: seq<Trip>, calendar: seq<CalendarEntry>,
    day: Weekday, now: string, ignored: Option<seq<TripId>>)
    requires |stopTimes| > 0 && SortedByArrival(stopTimes)
    requires |RunningOn(calendar, day)| > 0
    requires Candidates(stopTimes, trips, calendar, day, Excluded(ignored)) == stopTimes
    ensures var i := InsertionPoint(ArrivalTimes(stopTimes), now);
            NextDeparture(stopTimes, trips, calendar, day, now, ignored)
              == Success(stopTimes[if i < |stopTimes| then i else 0])
  {
  }

  /** With the whole table as candidates, the lookup as written returns the row the search picks. */
  lemma AsWrittenOverWholeTable(
    stopTimes: seq<StopTime>, trips: seq<Trip>, calendar: seq<CalendarEntry>,
    day: Weekday, now: string, ignored: seq<TripId>)
    requires |stopTimes| > 0
    requires |RunningOn(calendar, day)| > 0
    requires Candidates(stopTimes, trips, calendar, day, ignored) == stopTimes
    ensures var i := InsertionPoint(ArrivalTimes(stopTimes), now);
            NextTripAsWritten(stopTimes, trips, calendar, day, now, Some(ignored))
              == Success(stopTimes[if i < |stopTimes| then i else 0])
  {
  }

  /** When every stored trip runs on `day` and none is ignored, the filtered view is the whole table. */
  lemma CandidatesWhenNothingFiltered(
    stopTimes: seq<StopTime>, trips: seq<Trip>, calendar: seq<CalendarEntry>, day: Weekday, ignored: seq<TripId>)
    requires forall x :: x in stopTimes ==> x.tripId !in ignored && TripRunsOn(x.tripId, trips, calendar, day)
    ensures Candidates(stopTimes, trips, calendar, day, ignored) == stopTimes
  {
    var services := ServiceIdsOf(RunningOn(calendar, day));
    var tripIds := TripIdsOfTrips(TripsOfServices(trips, services));
    forall x | x in stopTimes ensures x.tripId in tripIds {
      RunningTripIsCandidateTrip(x.tripId, trips, calendar, day);
    }
    FilterKeepingAll(stopTimes, (st: StopTime) => st.tripId in tripIds);
    assert OnTrips(stopTimes, tripIds) == stopTimes;
    FilterKeepingAll(stopTimes, (st: StopTime) => st.tripId !in ignored);
    assert WithoutIgnored(stopTimes, ignored) == stopTimes;
  }

  /** A trip that runs on `day` passes the trip filter of the lookup. */
  lemma RunningTripIsCandidateTrip(tripId: TripId, trips: seq<Trip>, calendar: seq<CalendarEntry>, day: Weekday)
    requires TripRunsOn(tripId, trips, calendar, day)
    ensures tripId in TripIdsOfTrips(TripsOfServices(trips, ServiceIdsOf(RunningOn(calendar, day))))
    ensures |RunningOn(calendar, day)| > 0
  {
    var t, c :| t in trips && c in calendar && t.tripId == tripId && c.serviceId == t.serviceId && c.Flag(day) == 1;
    assert c in RunningOn(calendar, day);
    assert t in TripsOfServices(trips, ServiceIdsOf(RunningOn(calendar, day)));
  }

  // ---- The lookups on small candidate sets ------------------------------

  /**
   * Candidates drawn from rows a, b, c with a before `now`, b at or after
   * it and c after b: the next departure is b.
   */
  lemma MiddleIsNext(f: seq<StopTime>, now: string, x: StopTime, a: StopTime, b: StopTime, c: StopTime)
    requires b in f && forall y :: y in f ==> y in [a, b, c]
    requires Less(a.arrivalTime, now) && !Less(b.arrivalTime, now) && Less(b.arrivalTime, c.arrivalTime)
    requires IsNextDeparture(f, now, x)
    ensures x == b
  {
  }

  /**
   * Candidates drawn from rows a, b, c, all before `now`, with a the
   * earliest: the lookup wraps to a.
   */
  lemma FirstIsNextWhenAllEarlier(f: seq<StopTime>, now: string, x: StopTime, a: StopTime, b: StopTime, c: StopTime)
    requires a in f && forall y :: y in f ==> y in [a, b, c]
    requires Less(a.arrivalTime, now) && Less(b.arrivalTime, now) && Less(c.arrivalTime, now)
    requires Less(a.arrivalTime, b.arrivalTime) && Less(a.arrivalTime, c.arrivalTime)
    requires IsNextDeparture(f, now, x)
    ensures x == a
  {
  }

  /** Candidates drawn from rows a, b, c before `now` and d at or after it: the next departure is d. */
  lemma OnlyLaterIsNext(f: seq<StopTime>, now: string, x: StopTime, a: StopTime, b: StopTime, c: StopTime, d: StopTime)
    requires d in f && forall y :: y in f ==> y in [a, b, c, d]
    requires Less(a.arrivalTime, now) && Less(b.arrivalTime, now) && Less(c.arrivalTime, now)
    requires !Less(d.arrivalTime, now)
    requires IsNextDeparture(f, now, x)
    ensures x == d
  {
  }

  /** When the first candidate is not before `now`, the lookup as written reads stored row 0, `a`. */
  lemma AsWrittenAtFront(stopTimes: seq<StopTime>, trips: seq<Trip>, calendar: seq<CalendarEntry>,
                         day: Weekday, now: string, ignored: seq<TripId>, a: StopTime)
    requires |stopTimes| > 0 && stopTimes[0] == a && |RunningOn(calendar, day)| > 0
    requires var f := Candidates(stopTimes, trips, calendar, day, ignored);
             |f| > 0 && !Less(f[0].arrivalTime, now)
    ensures NextTripAsWritten(stopTimes, trips, calendar, day, now, Some(ignored)) == Success(a)
  {
  }

  /**
   * When a single candidate is left and it is before `now`, the search
   * returns 1 and the lookup as written reads stored row 1, `b`.
   */
  lemma AsWrittenPastSingleCandidate(stopTimes: seq<StopTime>, trips: seq<Trip>, calendar: seq<CalendarEntry>,
                                     day: Weekday, now: string, ignored: seq<TripId>, a: StopTime, b: StopTime)
    requires |stopTimes| > 1 && stopTimes[1] == b && |RunningOn(calendar, day)| > 0
    requires Candidates(stopTimes, trips, calendar, day, ignored) == [a] && Less(a.arrivalTime, now)
    ensures NextTripAsWritten(stopTimes, trips, calendar, day, now, Some(ignored)) == Success(b)
  {
    assert InsertionPoint(ArrivalTimes([a]), now) == 1;
    AsWrittenReadsSearchIndex(stopTimes, trips, calendar, day, now, ignored, 1);
  }
}
