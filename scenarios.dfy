/** Small concrete record sets and what the aggregations report for them. */
module Scenarios {
  import opened Wrappers
  import opened Seqs
  import opened Frequency
  import opened Records
  import opened Stats

  /** A Monday 8 o'clock subscriber trip with the given month, stations,
      duration and birth year. */
  function Trip(month: int, start: string, end: string, duration: nat, birthYear: Option<int>): Record {
    Record(month, "Monday", 8, start, end, duration, "Subscriber", None, birthYear)
  }

  /** Three trips in January and two in February: January is the popular
      month. */
  lemma PopularMonthOfFive()
    ensures var rows := [Trip(1, "A", "B", 60, None), Trip(1, "A", "B", 60, None), Trip(1, "A", "B", 60, None),
                         Trip(2, "A", "B", 60, None), Trip(2, "A", "B", 60, None)];
      TimeStats(rows).value.month == 1
  {
    var rows := [Trip(1, "A", "B", 60, None), Trip(1, "A", "B", 60, None), Trip(1, "A", "B", 60, None),
                 Trip(2, "A", "B", 60, None), Trip(2, "A", "B", 60, None)];
    var months := MonthColumn(rows);
    assert months == [1, 1, 1, 2, 2];
    assert Count([1, 1, 1, 2, 2], 1) == 3;
    assert Count([1, 1, 1, 2, 2], 2) == 2;
    forall v | v != 1 ensures Count(months, v) < 3 {
      if v != 2 { assert v !in months; }
    }
    StrictMaximumIsMode(months, 1);
  }

  /** Durations 100, 200 and 300 total 600 with mean 200. */
  lemma DurationsOfThree()
    ensures var r := DurationStats([Trip(1, "A", "B", 100, None), Trip(1, "A", "B", 200, None), Trip(1, "A", "B", 300, None)]);
      r.total == 600 && r.mean == Success(200.0)
  {
    var rows := [Trip(1, "A", "B", 100, None), Trip(1, "A", "B", 200, None), Trip(1, "A", "B", 300, None)];
    assert DurationColumn(rows) == [100, 200, 300];
  }

  /** Routes "A to B" twice and "C to D" once: "A to B" is the popular
      combination. */
  lemma PopularRouteOfThree()
    ensures StationStats([Trip(1, "A", "B", 60, None), Trip(1, "A", "B", 60, None), Trip(1, "C", "D", 60, None)]).value.route
      == "A to B"
  {
    var rows := [Trip(1, "A", "B", 60, None), Trip(1, "A", "B", 60, None), Trip(1, "C", "D", 60, None)];
    var routes := RouteColumn(rows);
    assert RouteKey(rows[0]) == "A to B" && RouteKey(rows[2]) == "C to D";
    assert routes == ["A to B", "A to B", "C to D"];
    assert Count(["A to B", "A to B", "C to D"], "A to B") == 2;
    assert Count(["A to B", "A to B", "C to D"], "C to D") == 1;
    forall v | v != "A to B" ensures Count(routes, v) < Count(routes, "A to B") {
      if v != "C to D" { assert v !in routes; }
    }
    StrictMaximumIsMode(routes, "A to B");
  }

  /** Birth years 1900, 1990 and 1990: 1900 is left out and every birth-year
      statistic is 1990. */
  lemma BirthYearsOfThree()
    ensures BirthYearStats(Table(Schema(false, true),
              [Trip(1, "A", "B", 60, Some(1900)), Trip(1, "A", "B", 60, Some(1990)), Trip(1, "A", "B", 60, Some(1990))]))
      == Available(BirthYearReport(1990, 1990, 1990))
  {
    var t := Table(Schema(false, true),
      [Trip(1, "A", "B", 60, Some(1900)), Trip(1, "A", "B", 60, Some(1990)), Trip(1, "A", "B", 60, Some(1990))]);
    var present := Present(BirthYearColumn(t.rows));
    assert BirthYearColumn(t.rows) == [Some(1900), Some(1990), Some(1990)];
    assert present == [1900, 1990, 1990];
    var p := (y: int) => y > BIRTH_YEAR_BOUND;
    assert Where([1990], p) == [1990];
    assert [1990, 1990][1..] == [1990];
    assert Where([1990, 1990], p) == [1990, 1990];
    assert present[1..] == [1990, 1990];
    var ys := EligibleYears(t.rows);
    assert ys == [1990, 1990];
    assert Count([1990, 1990], 1990) == 2;
  }

  /** A source without a gender column reports gender as unavailable, and an
      empty record set still has a total duration of 0 but no popular time
      and no mean. */
  lemma DegradedReports(rows: seq<Record>)
    ensures GenderCounts(Table(Schema(false, true), rows)) == Unavailable
    ensures TimeStats([]).Failure? && StationStats([]).Failure?
    ensures DurationStats([]).total == 0 && DurationStats([]).mean.Failure?
  {
  }
}
