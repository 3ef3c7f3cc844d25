/**
 * The GTFS Schedule tables the monitor reads (stops.txt, stop_times.txt,
 * trips.txt, calendar.txt), reduced to the columns the monitor uses, and
 * the table preparation done when the schedule is loaded.
 */
module Gtfs {
  import opened Wrappers
  import opened Seqs
  import opened Lexicographic

  type StopId = string
  type TripId = string
  type ServiceId = string

  /** A row of stops.txt. */
  datatype Stop = Stop(stopId: StopId, stopCode: string, stopName: string)

  /**
   * A row of stop_times.txt. Times are the file's text, "HH:MM:SS" with
   * hours that may exceed 23 for service after midnight.
   */
  datatype StopTime = StopTime(
    tripId: TripId,
    arrivalTime: string,
    departureTime: string,
    stopId: StopId,
    stopSequence: int)

  /** A row of trips.txt. */
  datatype Trip = Trip(routeId: string, serviceId: ServiceId, tripId: TripId, tripHeadsign: string)

  /** The lower-case day name the calendar columns are keyed by. */
  datatype Weekday = Monday | Tuesday | Wednesday | Thursday | Friday | Saturday | Sunday

  /** A row of calendar.txt: one 0/1 column per weekday. */
  datatype CalendarEntry = CalendarEntry(
    serviceId: ServiceId,
    monday: int, tuesday: int, wednesday: int, thursday: int,
    friday: int, saturday: int, sunday: int)
  {
    /** The value in this row's column for `day`. */
    function Flag(day: Weekday): (f: int)
    {
      match day
      case Monday => monday
      case Tuesday => tuesday
      case Wednesday => wednesday
      case Thursday => thursday
      case Friday => friday
      case Saturday => saturday
      case Sunday => sunday
    }
  }

  /** The `arrival_time` column. */
  function ArrivalTimes(s: seq<StopTime>): (ts: seq<string>)
    ensures |ts| == |s| && forall i :: 0 <= i < |s| ==> ts[i] == s[i].arrivalTime
  {
    seq(|s|, i requires 0 <= i < |s| => s[i].arrivalTime)
  }

  /** Ascending by `arrival_time`; rows with equal times may come in any order. */
  ghost predicate SortedByArrival(s: seq<StopTime>)
  {
    forall i, j :: 0 <= i < j < |s| ==> !Less(s[j].arrivalTime, s[i].arrivalTime)
  }

  lemma SortedColumn(s: seq<StopTime>)
    requires SortedByArrival(s)
    ensures Ascending(ArrivalTimes(s))
  {
  }

  /** A row no later than every row of a sorted table can go in front of it. */
  lemma PrependSorted(x: StopTime, s: seq<StopTime>)
    requires SortedByArrival(s)
    requires forall y :: y in s ==> !Less(y.arrivalTime, x.arrivalTime)
    ensures SortedByArrival([x] + s)
  {
    forall i, j | 0 <= i < j < |[x] + s|
      ensures !Less(([x] + s)[j].arrivalTime, ([x] + s)[i].arrivalTime)
    {
      if i == 0 {
        assert ([x] + s)[j] == s[j - 1];
      }
    }
  }

  /** Inserting one row into a sorted table after every earlier row. */
  function InsertByArrival(x: StopTime, s: seq<StopTime>): (r: seq<StopTime>)
    requires SortedByArrival(s)
    ensures SortedByArrival(r)
    ensures multiset(r) == multiset(s) + multiset{x}
  {
    if |s| == 0 then [x]
    else
      assert s == [s[0]] + s[1..];
      if !Less(s[0].arrivalTime, x.arrivalTime) then
        InsertInFront(x, s);
        [x] + s
      else
        var rest := InsertByArrival(x, s[1..]);
        InsertAfterHead(x, s, rest);
        [s[0]] + rest
  }

  lemma InsertInFront(x: StopTime, s: seq<StopTime>)
    requires SortedByArrival(s) && |s| > 0 && !Less(s[0].arrivalTime, x.arrivalTime)
    ensures SortedByArrival([x] + s)
  {
    forall y | y in s ensures !Less(y.arrivalTime, x.arrivalTime) {
      var j :| 0 <= j < |s| && s[j] == y;
      if j > 0 {
        AtMostTransitive(x.arrivalTime, s[0].arrivalTime, y.arrivalTime);
      }
    }
    PrependSorted(x, s);
  }

  lemma InsertAfterHead(x: StopTime, s: seq<StopTime>, rest: seq<StopTime>)
    requires SortedByArrival(s) && |s| > 0 && Less(s[0].arrivalTime, x.arrivalTime)
    requires SortedByArrival(rest) && multiset(rest) == multiset(s[1..]) + multiset{x}
    ensures SortedByArrival([s[0]] + rest)
  {
    forall y | y in rest ensures !Less(y.arrivalTime, s[0].arrivalTime) {
      assert y in multiset(rest);
      if y == x {
        LessAsymmetric(s[0].arrivalTime, x.arrivalTime);
      } else {
        assert y in multiset(s[1..]);
        var j :| 0 <= j < |s[1..]| && s[1..][j] == y;
        assert s[j + 1] == y;
      }
    }
    PrependSorted(s[0], rest);
  }

  /**
   * `sort_values(by=['arrival_time'])`: the same rows, ascending by
   * arrival time. pandas' default sort is not stable, so nothing is
   * promised about the order of rows with equal times.
   */
  function SortByArrival(s: seq<StopTime>): (r: seq<StopTime>)
    ensures SortedByArrival(r)
    ensures multiset(r) == multiset(s)
  {
    if |s| == 0 then []
    else
      assert s == [s[0]] + s[1..];
      InsertByArrival(s[0], SortByArrival(s[1..]))
  }

  /** Selecting rows keeps their relative order, so a sorted table stays sorted. */
  lemma {:induction false} FilterKeepsArrivalOrder(s: seq<StopTime>, keep: StopTime -> bool)
    requires SortedByArrival(s)
    ensures SortedByArrival(Filter(s, keep))
  {
    if |s| > 0 {
      FilterKeepsArrivalOrder(s[1..], keep);
      if keep(s[0]) {
        var rest := Filter(s[1..], keep);
        forall y | y in rest ensures !Less(y.arrivalTime, s[0].arrivalTime) {
          var j :| 0 <= j < |s[1..]| && s[1..][j] == y;
          assert s[j + 1] == y;
        }
        PrependSorted(s[0], rest);
      }
    }
  }

  // ---- Preparing the tables for one stop --------------------------------

  /** The position of the first `stops` row whose `stop_code` is `code`. */
  function FirstStopWithCode(stops: seq<Stop>, code: string): (r: Option<nat>)
    ensures r.None? <==> forall k :: 0 <= k < |stops| ==> stops[k].stopCode != code
    ensures r.Some? ==> r.value < |stops| && stops[r.value].stopCode == code
    ensures r.Some? ==> forall k :: 0 <= k < r.value ==> stops[k].stopCode != code
  {
    if |stops| == 0 then None
    else if stops[0].stopCode == code then Some(0)
    else
      match FirstStopWithCode(stops[1..], code)
      case None => None
      case Some(k) => Some(k + 1)
  }

  /** The stop-times at `stopId`: every such row, with its multiplicity, and no other. */
  function AtStop(stopTimes: seq<StopTime>, stopId: StopId): (r: seq<StopTime>)
    ensures forall x :: multiset(r)[x] == if x.stopId == stopId then multiset(stopTimes)[x] else 0
  {
    Filter(stopTimes, (st: StopTime) => st.stopId == stopId)
  }

  /** The `trip_id` values of a stop-time table. */
  function TripIdsOf(stopTimes: seq<StopTime>): (r: set<TripId>)
    ensures forall st :: st in stopTimes ==> st.tripId in r
    ensures forall id :: id in r ==> exists st :: st in stopTimes && st.tripId == id
  {
    set st | st in stopTimes :: st.tripId
  }

  /**
   * The trips that call at the stop: a trip row is kept, with its
   * multiplicity, exactly when its `trip_id` occurs in `stopTimes`.
   */
  function TripsServing(trips: seq<Trip>, stopTimes: seq<StopTime>): (r: seq<Trip>)
    ensures forall t :: multiset(r)[t] ==
                        if exists st :: st in stopTimes && st.tripId == t.tripId then multiset(trips)[t] else 0
  {
    var ids := TripIdsOf(stopTimes);
    Filter(trips, (t: Trip) => t.tripId in ids)
  }
}
