/** The trip records of one city, after the start timestamp has been
    parsed into the derived month, weekday and hour fields. */
module Records {
  import opened Wrappers
  import opened Text

  /** The weekday names the timestamp parser produces. */
  const WEEKDAYS: seq<string> :=
    ["Monday", "Tuesday", "Wednesday", "Thursday", "Friday", "Saturday", "Sunday"]

  /** One trip. `gender` and `birthYear` are `None` where the cell is empty,
      and always `None` when the source has no such column. */
  datatype Record = Record(
    month: int,
    dayOfWeek: string,
    hour: int,
    startStation: string,
    endStation: string,
    duration: nat,
    userType: string,
    gender: Option<string>,
    birthYear: Option<int>)

  /** Which optional demographic columns the source file has. */
  datatype Schema = Schema(hasGender: bool, hasBirthYear: bool)

  /** A loaded data frame: its columns and its rows in file order. */
  datatype Table = Table(schema: Schema, rows: seq<Record>)

  /** Every weekday name is already in title case. */
  lemma WeekdaysAreTitled()
    ensures forall i :: 0 <= i < |WEEKDAYS| ==> Title(WEEKDAYS[i]) == WEEKDAYS[i]
  {
    forall i | 0 <= i < |WEEKDAYS|
      ensures Title(WEEKDAYS[i]) == WEEKDAYS[i]
    {
      TitleOfWord(WEEKDAYS[i], WEEKDAYS[i]);
    }
  }

  /** The ranges of the derived fields, and no value in a missing column. A
      valid weekday name is its own title case, so a day selector equal to
      it up to case selects it. */
  predicate ValidRecord(s: Schema, r: Record)
    ensures ValidRecord(s, r) ==> Title(r.dayOfWeek) == r.dayOfWeek
  {
    WeekdaysAreTitled();
    && 1 <= r.month <= 12
    && r.dayOfWeek in WEEKDAYS
    && 0 <= r.hour <= 23
    && (!s.hasGender ==> r.gender.None?)
    && (!s.hasBirthYear ==> r.birthYear.None?)
  }

  predicate ValidTable(t: Table) {
    forall i :: 0 <= i < |t.rows| ==> ValidRecord(t.schema, t.rows[i])
  }

  /** The key of the start/end station combination of a trip: the start
      station, then " to ", then the end station. */
  function RouteKey(r: Record): (k: string)
    ensures |k| == |r.startStation| + 4 + |r.endStation|
    ensures k[..|r.startStation|] == r.startStation
    ensures k[|r.startStation|..|r.startStation| + 4] == " to "
    ensures k[|r.startStation| + 4..] == r.endStation
  {
    r.startStation + " to " + r.endStation
  }

  // The columns of a table, one cell per row.

  function MonthColumn(rows: seq<Record>): seq<int> {
    seq(|rows|, i requires 0 <= i < |rows| => rows[i].month)
  }

  function DayColumn(rows: seq<Record>): seq<string> {
    seq(|rows|, i requires 0 <= i < |rows| => rows[i].dayOfWeek)
  }

  function HourColumn(rows: seq<Record>): seq<int> {
    seq(|rows|, i requires 0 <= i < |rows| => rows[i].hour)
  }

  function StartColumn(rows: seq<Record>): seq<string> {
    seq(|rows|, i requires 0 <= i < |rows| => rows[i].startStation)
  }

  function EndColumn(rows: seq<Record>): seq<string> {
    seq(|rows|, i requires 0 <= i < |rows| => rows[i].endStation)
  }

  function RouteColumn(rows: seq<Record>): seq<string> {
    seq(|rows|, i requires 0 <= i < |rows| => RouteKey(rows[i]))
  }

  function UserTypeColumn(rows: seq<Record>): seq<string> {
    seq(|rows|, i requires 0 <= i < |rows| => rows[i].userType)
  }

  function GenderColumn(rows: seq<Record>): seq<Option<string>> {
    seq(|rows|, i requires 0 <= i < |rows| => rows[i].gender)
  }

  function BirthYearColumn(rows: seq<Record>): seq<Option<int>> {
    seq(|rows|, i requires 0 <= i < |rows| => rows[i].birthYear)
  }

  function DurationColumn(rows: seq<Record>): seq<int> {
    seq(|rows|, i requires 0 <= i < |rows| => rows[i].duration as int)
  }
}
