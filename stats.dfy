/** The four aggregation passes over a filtered table: popular times,
    popular stations, trip durations and user demographics. */
module Stats {
  import opened Wrappers
  import opened Seqs
  import opened Frequency
  import opened Records
  import opened Loading
  import opened Text

  /** Why a statistic has no value: the column it is taken over is empty. */
  datatype StatError = EmptyColumn(column: string)

  /** An optional statistic: missing columns and missing values degrade to
      Unavailable instead of failing the whole report. */
  datatype Availability<T> = Available(value: T) | Unavailable

  datatype TimeReport = TimeReport(month: int, day: string, hour: int)

  /** time_stats: the most common month, weekday and start hour. */
  function TimeStats(rows: seq<Record>): (r: Result<TimeReport, StatError>)
    ensures r.Failure? <==> rows == []
    ensures r.Success? ==>
      && IsMode(MonthColumn(rows), r.value.month)
      && IsMode(DayColumn(rows), r.value.day)
      && IsMode(HourColumn(rows), r.value.hour)
  {
    match (Mode(MonthColumn(rows)), Mode(DayColumn(rows)), Mode(HourColumn(rows)))
    case (Some(m), Some(d), Some(h)) => Success(TimeReport(m, d, h))
    case _ => Failure(EmptyColumn("month"))
  }

  datatype StationReport = StationReport(start: string, end: string, route: string)

  /** station_stats: the most common start station, end station and
      start/end combination. */
  function StationStats(rows: seq<Record>): (r: Result<StationReport, StatError>)
    ensures r.Failure? <==> rows == []
    ensures r.Success? ==>
      && IsMode(StartColumn(rows), r.value.start)
      && IsMode(EndColumn(rows), r.value.end)
      && IsMode(RouteColumn(rows), r.value.route)
  {
    match (Mode(StartColumn(rows)), Mode(EndColumn(rows)), Mode(RouteColumn(rows)))
    case (Some(s), Some(e), Some(k)) => Success(StationReport(s, e, k))
    case _ => Failure(EmptyColumn("Start Station"))
  }

  /** The sum of a column of durations. */
  function Sum(xs: seq<int>): (total: int)
    ensures xs == [] ==> total == 0
    ensures (forall i :: 0 <= i < |xs| ==> xs[i] >= 0) ==> total >= 0
  {
    if xs == [] then 0 else xs[0] + Sum(xs[1..])
  }

  lemma {:induction false} SumAppend(a: seq<int>, b: seq<int>)
    ensures Sum(a + b) == Sum(a) + Sum(b)
  {
    if a == [] {
      assert a + b == b;
    } else {
      assert (a + b)[1..] == a[1..] + b;
      SumAppend(a[1..], b);
    }
  }

  /** A lower bound on every duration bounds the total from below. */
  lemma {:induction false} SumAtLeast(xs: seq<int>, lo: int)
    requires forall i :: 0 <= i < |xs| ==> lo <= xs[i]
    ensures |xs| * lo <= Sum(xs)
  {
    if xs != [] {
      SumAtLeast(xs[1..], lo);
      assert |xs| * lo == lo + (|xs| - 1) * lo;
    }
  }

  /** An upper bound on every duration bounds the total from above. */
  lemma {:induction false} SumAtMost(xs: seq<int>, hi: int)
    requires forall i :: 0 <= i < |xs| ==> xs[i] <= hi
    ensures Sum(xs) <= |xs| * hi
  {
    if xs != [] {
      SumAtMost(xs[1..], hi);
      assert |xs| * hi == hi + (|xs| - 1) * hi;
    }
  }

  /** Dividing both sides of `n * lo <= total <= n * hi` by a positive `n`. */
  lemma DivideBounds(total: int, n: int, lo: int, hi: int)
    requires n > 0 && n * lo <= total <= n * hi
    ensures lo as real <= total as real / n as real <= hi as real
  {
  }

  datatype DurationReport = DurationReport(total: int, mean: Result<real, StatError>)

  /** trip_duration_stats: the total and the mean trip duration. */
  function DurationStats(rows: seq<Record>): (r: DurationReport)
    ensures r.total == Sum(DurationColumn(rows))
    ensures rows == [] ==> r.total == 0
    ensures r.mean.Failure? <==> rows == []
    ensures r.mean.Success? ==> r.mean.value * (|rows| as real) == r.total as real
  {
    var total := Sum(DurationColumn(rows));
    if rows == [] then DurationReport(total, Failure(EmptyColumn("Trip Duration")))
    else DurationReport(total, Success(total as real / |rows| as real))
  }

  /** The mean lies between the shortest and the longest trip. */
  lemma MeanWithinRange(rows: seq<Record>)
    requires rows != []
    ensures var ds := DurationColumn(rows);
      Min(ds) as real <= DurationStats(rows).mean.value <= Max(ds) as real
  {
    var ds := DurationColumn(rows);
    var n, lo, hi, total := |ds|, Min(ds), Max(ds), Sum(ds);
    SumAtLeast(ds, lo);
    SumAtMost(ds, hi);
    DivideBounds(total, n, lo, hi);
    assert DurationStats(rows).mean.value == total as real / n as real;
  }

  /** Splitting the rows splits the total duration. */
  lemma TotalOfConcatenation(a: seq<Record>, b: seq<Record>)
    ensures DurationStats(a + b).total == DurationStats(a).total + DurationStats(b).total
  {
    assert DurationColumn(a + b) == DurationColumn(a) + DurationColumn(b);
    SumAppend(DurationColumn(a), DurationColumn(b));
  }

  /** value_counts of the user types: every type of the rows with the
      number of rows of that type, most frequent first. */
  function UserTypeCounts(rows: seq<Record>): (r: Counts<string>)
    ensures forall i :: 0 <= i < |r| ==> r[i].1 == Count(UserTypeColumn(rows), r[i].0) && r[i].1 > 0
    ensures forall v :: v in Keys(r) <==> exists j :: 0 <= j < |rows| && rows[j].userType == v
    ensures Distinct(Keys(r))
    ensures NonIncreasing(r)
    ensures TotalCount(r) == |rows|
  {
    var col := UserTypeColumn(rows);
    assert forall v :: v in col <==> exists j :: 0 <= j < |rows| && rows[j].userType == v by {
      forall v ensures v in col <==> exists j :: 0 <= j < |rows| && rows[j].userType == v {
        if v in col {
          var j :| 0 <= j < |col| && col[j] == v;
          assert rows[j].userType == v;
        }
        if exists j :: 0 <= j < |rows| && rows[j].userType == v {
          var j :| 0 <= j < |rows| && rows[j].userType == v;
          assert col[j] == v;
        }
      }
    }
    ValueCounts(col)
  }

  /** value_counts of the gender column when the source has one: the empty
      cells are not counted. */
  function GenderCounts(t: Table): (r: Availability<Counts<string>>)
    ensures r.Unavailable? <==> !t.schema.hasGender
    ensures r.Available? ==>
      && (forall i :: 0 <= i < |r.value| ==>
            r.value[i].1 == Count(GenderColumn(t.rows), Some(r.value[i].0)) && r.value[i].1 > 0)
      && (forall g :: g in Keys(r.value) <==> Some(g) in GenderColumn(t.rows))
      && Distinct(Keys(r.value))
      && NonIncreasing(r.value)
      && TotalCount(r.value) == |t.rows| - Count(GenderColumn(t.rows), None)
  {
    if !t.schema.hasGender then Unavailable
    else
      var col := GenderColumn(t.rows);
      assert forall g :: g in Present(col) <==> Some(g) in col by {
        forall g ensures g in Present(col) <==> Some(g) in col {
          assert Count(Present(col), g) == Count(col, Some(g));
        }
      }
      Available(ValueCounts(Present(col)))
  }

  /** The lower bound below which a birth year is treated as an entry error. */
  const BIRTH_YEAR_BOUND: int := 1916

  /** The recorded birth years strictly after BIRTH_YEAR_BOUND. */
  function EligibleYears(rows: seq<Record>): (ys: seq<int>)
    ensures forall i :: 0 <= i < |ys| ==> ys[i] > BIRTH_YEAR_BOUND
    ensures forall y :: Count(ys, y) == if y > BIRTH_YEAR_BOUND then Count(BirthYearColumn(rows), Some(y)) else 0
  {
    Where(Present(BirthYearColumn(rows)), (y: int) => y > BIRTH_YEAR_BOUND)
  }

  datatype BirthYearReport = BirthYearReport(earliest: int, latest: int, mostCommon: int)

  /** The earliest, latest and most common eligible birth year; unavailable
      without a birth-year column or without an eligible year. */
  function BirthYearStats(t: Table): (r: Availability<BirthYearReport>)
    ensures r.Unavailable? <==> !t.schema.hasBirthYear || EligibleYears(t.rows) == []
    ensures r.Available? ==>
      var ys := EligibleYears(t.rows);
      && r.value.earliest in ys && r.value.latest in ys
      && (forall i :: 0 <= i < |ys| ==> r.value.earliest <= ys[i] <= r.value.latest)
      && IsMode(ys, r.value.mostCommon)
      && BIRTH_YEAR_BOUND < r.value.earliest <= r.value.mostCommon <= r.value.latest
  {
    if !t.schema.hasBirthYear then Unavailable
    else
      var ys := EligibleYears(t.rows);
      match Mode(ys)
      case None => Unavailable
      case Some(m) => Available(BirthYearReport(Min(ys), Max(ys), m))
  }

  datatype UserReport = UserReport(
    userTypes: Counts<string>,
    genders: Availability<Counts<string>>,
    birthYears: Availability<BirthYearReport>)

  /** user_stats: the user-type counts are always reported; the gender and
      birth-year parts each degrade to Unavailable on their own. */
  function UserStats(t: Table): (r: UserReport)
    ensures TotalCount(r.userTypes) == |t.rows|
    ensures r.genders.Unavailable? <==> !t.schema.hasGender
    ensures r.birthYears.Unavailable? <==> !t.schema.hasBirthYear || EligibleYears(t.rows) == []
  {
    UserReport(UserTypeCounts(t.rows), GenderCounts(t), BirthYearStats(t))
  }

  /** On a valid table the popular month, weekday and hour lie in the
      ranges of the derived fields. */
  lemma TimeStatsInRange(t: Table)
    requires ValidTable(t) && t.rows != []
    ensures var r := TimeStats(t.rows).value;
      1 <= r.month <= 12 && r.day in WEEKDAYS && 0 <= r.hour <= 23
  {
  }

  /** After a concrete month filter the popular month is the selected one,
      and after a concrete day filter the popular weekday is the selected
      one. */
  lemma PopularTimeIsSelected(rows: seq<Record>, month: string, day: string)
    requires FilterRows(rows, month, day).Success?
    requires FilterRows(rows, month, day).value != []
    ensures var r := TimeStats(FilterRows(rows, month, day).value).value;
      && (month != ALL ==> MonthNumber(month) == Some(r.month))
      && (day != ALL ==> r.day == Title(day))
  {
  }
}
