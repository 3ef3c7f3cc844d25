/**
 * The monitor object: it loads the schedule tables for one configured
 * stop into its fields and looks up the next trip from them.
 */
module Monitor {
  import opened Wrappers
  import opened Lexicographic
  import opened Gtfs
  import opened SearchSorted
  import opened NextTrip

  /** The stop code the monitor is configured with. */
  const ConfiguredStopCode: string := "MOGI42"

  datatype LoadError =
    | UnknownStopCode(code: string)        // no stops.txt row has the stop code
    | StopIdNotInStopTimes(stopId: StopId) // stop_times.txt has no row at the stop

  class VirtualMonitor {
    const stopCode: string
    var stopId: Option<StopId>
    var stopTimes: seq<StopTime>
    var trips: seq<Trip>
    var calendar: seq<CalendarEntry>

    /**
     * Loaded: the stop is known and its stop-times are non-empty, all at
     * that stop, and ascending by arrival time.
     */
    ghost predicate Valid()
      reads this
    {
      && stopId.Some?
      && |stopTimes| > 0
      && SortedByArrival(stopTimes)
      && forall st :: st in stopTimes ==> st.stopId == stopId.value
    }

    /** The fields before any schedule is loaded. */
    constructor ()
      ensures stopCode == ConfiguredStopCode
      ensures stopId == None && stopTimes == [] && trips == [] && calendar == []
    {
      stopCode := ConfiguredStopCode;
      stopId := None;
      stopTimes := [];
      trips := [];
      calendar := [];
    }

    /**
     * Loads the tables for the configured stop, field by field. A failure
     * leaves the fields set so far in place: an unknown stop code changes
     * nothing, a stop without stop-times leaves its id and an empty table.
     */
    method LoadInitialGtfs(stops: seq<Stop>, allStopTimes: seq<StopTime>, allTrips: seq<Trip>,
                           calendarRows: seq<CalendarEntry>) returns (outcome: Outcome<LoadError>)
      modifies this
      ensures FirstStopWithCode(stops, stopCode).None? ==>
                outcome == Fail(UnknownStopCode(stopCode)) && unchanged(this)
      ensures FirstStopWithCode(stops, stopCode).Some? ==>
                stopId == Some(stops[FirstStopWithCode(stops, stopCode).value].stopId)
      ensures FirstStopWithCode(stops, stopCode).Some? && AtStop(allStopTimes, stopId.value) == [] ==>
                && outcome == Fail(StopIdNotInStopTimes(stopId.value))
                && stopTimes == [] && trips == old(trips) && calendar == old(calendar)
      ensures outcome.Pass? <==>
                FirstStopWithCode(stops, stopCode).Some? && AtStop(allStopTimes, stopId.value) != []
      ensures outcome.Pass? ==>
                && Valid()
                && multiset(stopTimes) == multiset(AtStop(allStopTimes, stopId.value))
                && trips == TripsServing(allTrips, stopTimes)
                && calendar == calendarRows
    {
      var found := FirstStopWithCode(stops, stopCode);
      if found.None? {
        return Fail(UnknownStopCode(stopCode));
      }
      stopId := Some(stops[found.value].stopId);

      stopTimes := AtStop(allStopTimes, stopId.value);
      if stopTimes == [] {
        return Fail(StopIdNotInStopTimes(stopId.value));
      }
      ghost var matching := stopTimes;
      stopTimes := SortByArrival(stopTimes);
      forall st | st in stopTimes ensures st.stopId == stopId.value {
        assert st in multiset(matching);
      }

      trips := TripsServing(allTrips, stopTimes);
      calendar := calendarRows;
      outcome := Pass;
    }

    /**
     * Creating a monitor: the fields are initialised and the schedule
     * loaded; a load failure means no monitor is created.
     */
    static method Open(stops: seq<Stop>, allStopTimes: seq<StopTime>, allTrips: seq<Trip>,
                       calendarRows: seq<CalendarEntry>) returns (r: Result<VirtualMonitor, LoadError>)
      ensures r.Failure? <==>
                || FirstStopWithCode(stops, ConfiguredStopCode).None?
                || AtStop(allStopTimes, stops[FirstStopWithCode(stops, ConfiguredStopCode).value].stopId) == []
      ensures r.Failure? ==>
                r.error == if FirstStopWithCode(stops, ConfiguredStopCode).None?
                           then UnknownStopCode(ConfiguredStopCode)
                           else StopIdNotInStopTimes(stops[FirstStopWithCode(stops, ConfiguredStopCode).value].stopId)
      ensures r.Success? ==>
                && fresh(r.value) && r.value.Valid() && r.value.stopCode == ConfiguredStopCode
                && r.value.stopId == Some(stops[FirstStopWithCode(stops, ConfiguredStopCode).value].stopId)
                && multiset(r.value.stopTimes) == multiset(AtStop(allStopTimes, r.value.stopId.value))
                && r.value.trips == TripsServing(allTrips, r.value.stopTimes)
                && r.value.calendar == calendarRows
    {
      var monitor := new VirtualMonitor();
      var outcome := monitor.LoadInitialGtfs(stops, allStopTimes, allTrips, calendarRows);
      match outcome
      case Pass => r := Success(monitor);
      case Fail(e) => r := Failure(e);
    }

    /**
     * The next trip at the stop for the clock reading (`day`, `now`) with
     * the trips in `ignored` skipped, computed as the source computes it.
     */
    method GetNextTrip(day: Weekday, now: string, ignored: Option<seq<TripId>>)
      returns (r: Result<StopTime, LookupError>)
      requires Valid()
      ensures r == NextTripAsWritten(stopTimes, trips, calendar, day, now, ignored)
    {
      var weekdayRows := RunningOn(calendar, day);
      if |weekdayRows| == 0 {
        return Failure(NoServiceForWeekday);
      }
      var serviceIds := ServiceIdsOf(weekdayRows);
      var weekdayTrips := TripsOfServices(trips, serviceIds);
      var filtered := OnTrips(stopTimes, TripIdsOfTrips(weekdayTrips));
      if ignored.None? {
        return Failure(IgnoredTripsNotListLike);
      }
      filtered := WithoutIgnored(filtered, ignored.value);
      assert filtered == Candidates(stopTimes, trips, calendar, day, ignored.value);

      CandidatesSorted(stopTimes, trips, calendar, day, ignored.value);
      SortedColumn(filtered);
      var index := SearchSortedLeft(ArrivalTimes(filtered), now);
      AsWrittenReadsSearchIndex(stopTimes, trips, calendar, day, now, ignored.value, index);
      if index > |stopTimes| - 1 {
        index := 0;
      }
      r := Success(stopTimes[index]);
    }
  }
}
