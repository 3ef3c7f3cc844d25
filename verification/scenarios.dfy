/**
 * A three-trip timetable at one stop, used to pin the lookup down on
 * concrete clock readings and to exhibit where the lookup as written
 * departs from the intended departure.
 */
module Scenarios {
  import opened Wrappers
  import opened Lexicographic
  import opened Gtfs
  import opened SearchSorted
  import opened NextTrip

  const A: StopTime := StopTime("A", "08:00:00", "08:00:00", "S1", 4)
  const B: StopTime := StopTime("B", "08:15:00", "08:15:00", "S1", 4)
  const C: StopTime := StopTime("C", "08:30:00", "08:30:00", "S1", 4)
  const Late: StopTime := StopTime("L", "25:10:00", "25:10:00", "S1", 4)

  /** One service that runs Monday to Friday. */
  const Workdays: seq<CalendarEntry> := [CalendarEntry("WD", 1, 1, 1, 1, 1, 0, 0)]
  const Trips: seq<Trip> := [
    Trip("16", "WD", "A", "Sobieskiego"), Trip("16", "WD", "B", "Sobieskiego"),
    Trip("16", "WD", "C", "Sobieskiego"), Trip("16", "WD", "L", "Sobieskiego")]
  const Table: seq<StopTime> := [A, B, C]
  /** The same table with a trip listed after midnight. */
  const LateTable: seq<StopTime> := [A, B, C, Late]

  /** The rows of the example table by position. */
  lemma TableRows(table: seq<StopTime>)
    requires table == Table
    ensures |table| == 3 && table[0] == A && table[1] == B && table[2] == C
  {
  }

  lemma TableSorted(table: seq<StopTime>)
    requires table == Table || table == LateTable
    ensures SortedByArrival(table)
  {
    ExampleTimesInOrder();
    RisingRowsSorted(A, B, C, Late);
  }

  /** Rows with strictly rising arrival times form a sorted table, and so does any prefix of three. */
  lemma RisingRowsSorted(a: StopTime, b: StopTime, c: StopTime, d: StopTime)
    requires Less(a.arrivalTime, b.arrivalTime) && Less(b.arrivalTime, c.arrivalTime) && Less(c.arrivalTime, d.arrivalTime)
    ensures SortedByArrival([a, b, c]) && SortedByArrival([a, b, c, d])
  {
    LessTransitive(a.arrivalTime, b.arrivalTime, c.arrivalTime);
    LessTransitive(a.arrivalTime, c.arrivalTime, d.arrivalTime);
    LessTransitive(b.arrivalTime, c.arrivalTime, d.arrivalTime);
    var s := [a, b, c, d];
    forall i, j | 0 <= i < j < 4 ensures !Less(s[j].arrivalTime, s[i].arrivalTime) {
      LessAsymmetric(s[i].arrivalTime, s[j].arrivalTime);
    }
    assert [a, b, c] == s[..3];
  }

  lemma AllRunOnMonday(table: seq<StopTime>, trips: seq<Trip>, calendar: seq<CalendarEntry>)
    requires table == Table || table == LateTable
    requires trips == Trips && calendar == Workdays
    ensures forall x :: x in table ==> TripRunsOn(x.tripId, trips, calendar, Monday)
  {
    assert calendar[0] in calendar;
    assert trips[0] in trips && trips[1] in trips && trips[2] in trips && trips[3] in trips;
  }

  /** The order of the example times: A < 08:10 <= B < C < 23:55 <= Late (25:10). */
  lemma ExampleTimesInOrder()
    ensures Less(A.arrivalTime, "08:10:00") && !Less(B.arrivalTime, "08:10:00") && !Less(C.arrivalTime, "08:10:00")
    ensures Less(A.arrivalTime, B.arrivalTime) && Less(B.arrivalTime, C.arrivalTime) && Less(A.arrivalTime, C.arrivalTime)
    ensures Less(C.arrivalTime, Late.arrivalTime)
    ensures Less(A.arrivalTime, "23:55:00") && Less(B.arrivalTime, "23:55:00") && Less(C.arrivalTime, "23:55:00")
    ensures !Less(Late.arrivalTime, "23:55:00")
  {
  }

  /** Among candidates drawn from B and C and holding B, the next departure at 08:10 is B. */
  lemma NextAtTenPastEightIsB(f: seq<StopTime>, x: StopTime)
    requires B in f && forall y :: y in f ==> y in Table
    requires IsNextDeparture(f, "08:10:00", x)
    ensures x == B
  {
    ExampleTimesInOrder();
    MiddleIsNext(f, "08:10:00", x, A, B, C);
  }

  /** The lookup as written on three sorted rows, all running, none ignored: b when a < now <= b. */
  lemma AsWrittenPicksMiddle(table: seq<StopTime>, trips: seq<Trip>, calendar: seq<CalendarEntry>, day: Weekday,
                             now: string, a: StopTime, b: StopTime, c: StopTime)
    requires table == [a, b, c] && SortedByArrival(table)
    requires forall x :: x in table ==> TripRunsOn(x.tripId, trips, calendar, day)
    requires Less(a.arrivalTime, now) && !Less(b.arrivalTime, now) && Less(b.arrivalTime, c.arrivalTime)
    ensures NextTripAsWritten(table, trips, calendar, day, now, Some([])) == Success(b)
  {
    AsWrittenMatchesIntentWhenNothingFiltered(table, trips, calendar, day, now, []);
    var x := NextTripAsWritten(table, trips, calendar, day, now, Some([])).value;
    MiddleIsNext(table, now, x, a, b, c);
  }

  /** The lookup as written on three sorted rows, all before `now`: it wraps to the first, a. */
  lemma AsWrittenWrapsToFirst(table: seq<StopTime>, trips: seq<Trip>, calendar: seq<CalendarEntry>, day: Weekday,
                              now: string, a: StopTime, b: StopTime, c: StopTime)
    requires table == [a, b, c] && SortedByArrival(table)
    requires forall x :: x in table ==> TripRunsOn(x.tripId, trips, calendar, day)
    requires Less(a.arrivalTime, now) && Less(b.arrivalTime, now) && Less(c.arrivalTime, now)
    requires Less(a.arrivalTime, b.arrivalTime) && Less(a.arrivalTime, c.arrivalTime)
    ensures NextTripAsWritten(table, trips, calendar, day, now, Some([])) == Success(a)
  {
    AsWrittenMatchesIntentWhenNothingFiltered(table, trips, calendar, day, now, []);
    var x := NextTripAsWritten(table, trips, calendar, day, now, Some([])).value;
    FirstIsNextWhenAllEarlier(table, now, x, a, b, c);
  }

  /** The lookup as written on four sorted rows with only the last, d, at or after `now`: d. */
  lemma AsWrittenPicksLast(table: seq<StopTime>, trips: seq<Trip>, calendar: seq<CalendarEntry>, day: Weekday,
                           now: string, a: StopTime, b: StopTime, c: StopTime, d: StopTime)
    requires table == [a, b, c, d] && SortedByArrival(table)
    requires forall x :: x in table ==> TripRunsOn(x.tripId, trips, calendar, day)
    requires Less(a.arrivalTime, now) && Less(b.arrivalTime, now) && Less(c.arrivalTime, now)
    requires !Less(d.arrivalTime, now)
    ensures NextTripAsWritten(table, trips, calendar, day, now, Some([])) == Success(d)
  {
    AsWrittenMatchesIntentWhenNothingFiltered(table, trips, calendar, day, now, []);
    var x := NextTripAsWritten(table, trips, calendar, day, now, Some([])).value;
    OnlyLaterIsNext(table, now, x, a, b, c, d);
  }

  /** At 08:10 on a Monday, with all trips running, the next departure is B at 08:15. */
  lemma MorningLookup(table: seq<StopTime>, trips: seq<Trip>, calendar: seq<CalendarEntry>)
    requires table == Table && trips == Trips && calendar == Workdays
    ensures NextTripAsWritten(table, trips, calendar, Monday, "08:10:00", Some([])) == Success(B)
  {
    TableSorted(table);
    AllRunOnMonday(table, trips, calendar);
    ExampleTimesInOrder();
    AsWrittenPicksMiddle(table, trips, calendar, Monday, "08:10:00", A, B, C);
  }

  /** At 23:55, after the last departure, the lookup wraps to the first one, A. */
  lemma WraparoundLookup(table: seq<StopTime>, trips: seq<Trip>, calendar: seq<CalendarEntry>)
    requires table == Table && trips == Trips && calendar == Workdays
    ensures NextTripAsWritten(table, trips, calendar, Monday, "23:55:00", Some([])) == Success(A)
  {
    TableSorted(table);
    AllRunOnMonday(table, trips, calendar);
    ExampleTimesInOrder();
    AsWrittenWrapsToFirst(table, trips, calendar, Monday, "23:55:00", A, B, C);
  }

  /** A post-midnight time "25:10:00" sorts after "23:55:00": it is the next departure then. */
  lemma AfterMidnightLookup(table: seq<StopTime>, trips: seq<Trip>, calendar: seq<CalendarEntry>)
    requires table == LateTable && trips == Trips && calendar == Workdays
    ensures NextTripAsWritten(table, trips, calendar, Monday, "23:55:00", Some([])) == Success(Late)
  {
    TableSorted(table);
    AllRunOnMonday(table, trips, calendar);
    ExampleTimesInOrder();
    AsWrittenPicksLast(table, trips, calendar, Monday, "23:55:00", A, B, C, Late);
  }

  // ---- Where the lookup as written departs from the intent ----------------

  lemma ServiceRunsOnMonday(calendar: seq<CalendarEntry>)
    requires calendar == Workdays
    ensures |RunningOn(calendar, Monday)| > 0
  {
    assert calendar[0] in calendar;
  }

  /** Ignoring A leaves B and C as candidates. */
  lemma CandidatesIgnoringA(table: seq<StopTime>, trips: seq<Trip>, calendar: seq<CalendarEntry>, ignored: seq<TripId>)
    requires table == Table && ignored == ["A"]
    requires forall x :: x in table ==> TripRunsOn(x.tripId, trips, calendar, Monday)
    ensures var f := Candidates(table, trips, calendar, Monday, ignored);
            B in f && forall y :: y in f ==> y in Table
    ensures forall y :: y in Candidates(table, trips, calendar, Monday, ignored) ==> y != A
  {
  }

  /** Ignoring nothing keeps every row of the table, B among them. */
  lemma CandidatesOfWholeTable(table: seq<StopTime>, trips: seq<Trip>, calendar: seq<CalendarEntry>)
    requires table == Table
    requires forall x :: x in table ==> TripRunsOn(x.tripId, trips, calendar, Monday)
    ensures var f := Candidates(table, trips, calendar, Monday, []);
            B in f && forall y :: y in f ==> y in Table
  {
  }

  /** Ignoring B and C leaves the single row A as candidates. */
  lemma CandidatesIgnoringBAndC(table: seq<StopTime>, trips: seq<Trip>, calendar: seq<CalendarEntry>, ignored: seq<TripId>)
    requires table == Table && ignored == ["B", "C"]
    requires forall x :: x in table ==> TripRunsOn(x.tripId, trips, calendar, Monday)
    ensures Candidates(table, trips, calendar, Monday, ignored) == [A]
  {
    ACountedOnce(table);
    assert A in table;
    CandidateCount(table, trips, calendar, ignored, A);
    OnlyAIgnoringBAndC(table, trips, calendar, ignored);
    OnlyRow(Candidates(table, trips, calendar, Monday, ignored), A);
  }

  lemma ACountedOnce(table: seq<StopTime>)
    requires table == Table
    ensures multiset(table)[A] == 1
  {
  }

  /** A row of a running, not ignored trip is a candidate as often as it is stored. */
  lemma CandidateCount(table: seq<StopTime>, trips: seq<Trip>, calendar: seq<CalendarEntry>, ignored: seq<TripId>, x: StopTime)
    requires x.tripId !in ignored && TripRunsOn(x.tripId, trips, calendar, Monday)
    ensures multiset(Candidates(table, trips, calendar, Monday, ignored))[x] == multiset(table)[x]
  {
  }

  lemma OnlyAIgnoringBAndC(table: seq<StopTime>, trips: seq<Trip>, calendar: seq<CalendarEntry>, ignored: seq<TripId>)
    requires table == Table && ignored == ["B", "C"]
    ensures forall y :: y in Candidates(table, trips, calendar, Monday, ignored) ==> y == A
  {
  }

  /** In a sequence made only of `x`, `x` occurs as often as the sequence is long. */
  lemma {:induction false} CountOfUniform(f: seq<StopTime>, x: StopTime)
    requires forall y :: y in f ==> y == x
    ensures multiset(f)[x] == |f|
  {
    if f != [] {
      assert f == [f[0]] + f[1..];
      assert f[0] in f;
      assert forall y :: y in f[1..] ==> y in f;
      CountOfUniform(f[1..], x);
    }
  }

  /** A sequence holding `x` once and nothing else is `[x]`. */
  lemma OnlyRow(f: seq<StopTime>, x: StopTime)
    requires multiset(f)[x] == 1 && forall y :: y in f ==> y == x
    ensures f == [x]
  {
    CountOfUniform(f, x);
    assert f[0] in f;
  }

  // The lookups below are stated for any tables, so that the reasoning
  // about the search stays apart from the literal example tables.

  /** Candidates drawn from b and c, both not before `now`: the first of them is not before `now`. */
  lemma FrontNotBefore(f: seq<StopTime>, now: string, a: StopTime, b: StopTime, c: StopTime)
    requires |f| > 0 && forall y :: y in f ==> y in [a, b, c]
    requires forall y :: y in f ==> y != a
    requires !Less(b.arrivalTime, now) && !Less(c.arrivalTime, now)
    ensures !Less(f[0].arrivalTime, now)
  {
    assert f[0] in f;
  }

  /** A given `ignored_trips` list excludes exactly the listed trips. */
  lemma ExcludedListed(ids: seq<TripId>)
    ensures Excluded(Some(ids)) == ids
  {
  }

  /** Candidates drawn from the table and holding B: the intended lookup at 08:10 returns B. */
  lemma IntendedAtTenPastEight(table: seq<StopTime>, trips: seq<Trip>, calendar: seq<CalendarEntry>,
                               ignored: Option<seq<TripId>>, excluded: seq<TripId>)
    requires excluded == Excluded(ignored)
    requires SortedByArrival(table) && |RunningOn(calendar, Monday)| > 0
    requires var f := Candidates(table, trips, calendar, Monday, excluded);
             B in f && forall y :: y in f ==> y in Table
    ensures NextDeparture(table, trips, calendar, Monday, "08:10:00", ignored) == Success(B)
  {
    var x := NextDeparture(table, trips, calendar, Monday, "08:10:00", ignored).value;
    NextAtTenPastEightIsB(Candidates(table, trips, calendar, Monday, excluded), x);
  }

  /** A as the only candidate: the intended lookup at 23:55 wraps to A. */
  lemma IntendedAtFiveToMidnight(table: seq<StopTime>, trips: seq<Trip>, calendar: seq<CalendarEntry>,
                                 ignored: Option<seq<TripId>>, excluded: seq<TripId>)
    requires excluded == Excluded(ignored)
    requires SortedByArrival(table) && |RunningOn(calendar, Monday)| > 0
    requires Candidates(table, trips, calendar, Monday, excluded) == [A]
    ensures NextDeparture(table, trips, calendar, Monday, "23:55:00", ignored) == Success(A)
  {
  }

  // The two halves of each finding on the example tables.

  lemma FilteredIndexAsWritten(table: seq<StopTime>, trips: seq<Trip>, calendar: seq<CalendarEntry>)
    requires table == Table && trips == Trips && calendar == Workdays
    ensures NextTripAsWritten(table, trips, calendar, Monday, "08:10:00", Some(["A"])) == Success(A)
  {
    ServiceRunsOnMonday(calendar);
    AllRunOnMonday(table, trips, calendar);
    CandidatesIgnoringA(table, trips, calendar, ["A"]);
    ExampleTimesInOrder();
    FrontNotBefore(Candidates(table, trips, calendar, Monday, ["A"]), "08:10:00", A, B, C);
    TableRows(table);
    AsWrittenAtFront(table, trips, calendar, Monday, "08:10:00", ["A"], A);
  }

  lemma FilteredIndexIntended(table: seq<StopTime>, trips: seq<Trip>, calendar: seq<CalendarEntry>)
    requires table == Table && trips == Trips && calendar == Workdays
    ensures SortedByArrival(table)
    ensures NextDeparture(table, trips, calendar, Monday, "08:10:00", Some(["A"])) == Success(B)
  {
    TableSorted(table);
    ServiceRunsOnMonday(calendar);
    AllRunOnMonday(table, trips, calendar);
    CandidatesIgnoringA(table, trips, calendar, ["A"]);
    ExcludedListed(["A"]);
    IntendedAtTenPastEight(table, trips, calendar, Some(["A"]), ["A"]);
  }

  lemma WrapAsWritten(table: seq<StopTime>, trips: seq<Trip>, calendar: seq<CalendarEntry>)
    requires table == Table && trips == Trips && calendar == Workdays
    ensures NextTripAsWritten(table, trips, calendar, Monday, "23:55:00", Some(["B", "C"])) == Success(B)
  {
    ServiceRunsOnMonday(calendar);
    AllRunOnMonday(table, trips, calendar);
    CandidatesIgnoringBAndC(table, trips, calendar, ["B", "C"]);
    ExampleTimesInOrder();
    TableRows(table);
    AsWrittenPastSingleCandidate(table, trips, calendar, Monday, "23:55:00", ["B", "C"], A, B);
  }

  lemma WrapIntended(table: seq<StopTime>, trips: seq<Trip>, calendar: seq<CalendarEntry>)
    requires table == Table && trips == Trips && calendar == Workdays
    ensures SortedByArrival(table)
    ensures NextDeparture(table, trips, calendar, Monday, "23:55:00", Some(["B", "C"])) == Success(A)
  {
    TableSorted(table);
    ServiceRunsOnMonday(calendar);
    AllRunOnMonday(table, trips, calendar);
    CandidatesIgnoringBAndC(table, trips, calendar, ["B", "C"]);
    ExcludedListed(["B", "C"]);
    IntendedAtFiveToMidnight(table, trips, calendar, Some(["B", "C"]), ["B", "C"]);
  }

  lemma DefaultIntended(table: seq<StopTime>, trips: seq<Trip>, calendar: seq<CalendarEntry>)
    requires table == Table && trips == Trips && calendar == Workdays
    ensures SortedByArrival(table)
    ensures NextDeparture(table, trips, calendar, Monday, "08:10:00", None) == Success(B)
  {
    TableSorted(table);
    ServiceRunsOnMonday(calendar);
    AllRunOnMonday(table, trips, calendar);
    CandidatesOfWholeTable(table, trips, calendar);
    IntendedAtTenPastEight(table, trips, calendar, None, []);
  }

  /**
   * Ignoring A at 08:10: the search finds index 0 in the filtered view
   * [B, C], and the lookup as written returns row 0 of the STORED table,
   * the ignored trip A, which has already left; the intended answer is B.
   */
  lemma FilteredIndexReadsStoredTable(table: seq<StopTime>, trips: seq<Trip>, calendar: seq<CalendarEntry>)
    requires table == Table && trips == Trips && calendar == Workdays
    ensures NextTripAsWritten(table, trips, calendar, Monday, "08:10:00", Some(["A"])) == Success(A)
    ensures SortedByArrival(table)
    ensures NextDeparture(table, trips, calendar, Monday, "08:10:00", Some(["A"])) == Success(B)
  {
    FilteredIndexAsWritten(table, trips, calendar);
    FilteredIndexIntended(table, trips, calendar);
  }

  /**
   * Ignoring B and C at 23:55: the search runs past the end of the
   * one-row filtered view (index 1), the wrap test compares with the
   * three-row STORED table and does not fire, and the lookup as written
   * returns stored row 1, the ignored trip B; the intended answer wraps to A.
   */
  lemma WrapTestUsesStoredLength(table: seq<StopTime>, trips: seq<Trip>, calendar: seq<CalendarEntry>)
    requires table == Table && trips == Trips && calendar == Workdays
    ensures NextTripAsWritten(table, trips, calendar, Monday, "23:55:00", Some(["B", "C"])) == Success(B)
    ensures SortedByArrival(table)
    ensures NextDeparture(table, trips, calendar, Monday, "23:55:00", Some(["B", "C"])) == Success(A)
  {
    WrapAsWritten(table, trips, calendar);
    WrapIntended(table, trips, calendar);
  }

  /**
   * The default `ignored_trips=None`: the lookup as written fails on a
   * running weekday (pandas refuses `isin(None)`); the intended reading,
   * no trip ignored, gives B at 08:10.
   */
  lemma DefaultIgnoredTripsFails(table: seq<StopTime>, trips: seq<Trip>, calendar: seq<CalendarEntry>)
    requires table == Table && trips == Trips && calendar == Workdays
    ensures NextTripAsWritten(table, trips, calendar, Monday, "08:10:00", None) == Failure(IgnoredTripsNotListLike)
    ensures SortedByArrival(table)
    ensures NextDeparture(table, trips, calendar, Monday, "08:10:00", None) == Success(B)
  {
    ServiceRunsOnMonday(calendar);
    DefaultIntended(table, trips, calendar);
  }
}
