/** Loading a city's records and narrowing them by month and weekday. */
module Loading {
  import opened Wrappers
  import opened Seqs
  import opened Records
  import opened Sources
  import opened Text

  /** The month names a month selector may hold; position + 1 is the month. */
  const MONTHS: seq<string> := ["january", "february", "march", "april", "may", "june"]

  /** The weekday selectors the prompt accepts besides "all". */
  const DAY_SELECTORS: seq<string> :=
    ["monday", "tuesday", "wednesday", "thursday", "friday", "saturday", "sunday"]

  const ALL: string := "all"

  datatype LoadError =
    | FileNotFound(name: string)   // the derived file does not exist
    | UnknownMonth(month: string)  // the month name is not in MONTHS

  /** The position of the first occurrence of `x` in `s`, if any. */
  function IndexOf(s: seq<string>, x: string): (r: Option<nat>)
    ensures r.Some? <==> x in s
    ensures r.Some? ==> r.value < |s| && s[r.value] == x && x !in s[..r.value]
  {
    if s == [] then None
    else if s[0] == x then Some(0)
    else match IndexOf(s[1..], x)
      case None => None
      case Some(k) =>
        assert s[..k + 1] == [s[0]] + s[1..][..k];
        Some(k + 1)
  }

  /** The month number a month name selects; none for a name outside MONTHS. */
  function MonthNumber(name: string): (r: Option<int>)
    ensures r.Some? <==> name in MONTHS
    ensures r.Some? ==> 1 <= r.value <= |MONTHS| && MONTHS[r.value - 1] == name
  {
    match IndexOf(MONTHS, name)
    case None => None
    case Some(k) => Some(k + 1)
  }

  /** The six month names select the months 1 to 6, in calendar order. */
  lemma MonthNumbersInOrder()
    ensures forall i :: 0 <= i < |MONTHS| ==> MonthNumber(MONTHS[i]) == Some(i + 1)
  {
    assert Distinct(MONTHS);
    forall i | 0 <= i < |MONTHS| ensures MonthNumber(MONTHS[i]) == Some(i + 1) {
      var k := MonthNumber(MONTHS[i]).value - 1;
      assert MONTHS[k] == MONTHS[i];
    }
  }

  /** Each lower-case weekday selector title-cases to the weekday name the
      records carry, so selector and record compare equal. */
  lemma DaySelectorsMatchWeekdays()
    ensures forall i :: 0 <= i < |DAY_SELECTORS| ==> Title(DAY_SELECTORS[i]) == WEEKDAYS[i]
  {
    forall i | 0 <= i < |DAY_SELECTORS|
      ensures Title(DAY_SELECTORS[i]) == WEEKDAYS[i]
    {
      TitleOfWord(DAY_SELECTORS[i], WEEKDAYS[i]);
    }
  }

  /** The rows of month `m`, in their original order. */
  function ByMonth(rows: seq<Record>, m: int): (r: seq<Record>)
    ensures IsSubsequence(r, rows)
    ensures forall i :: 0 <= i < |r| ==> r[i].month == m
    ensures forall x :: Count(r, x) == if x.month == m then Count(rows, x) else 0
    ensures (forall i :: 0 <= i < |rows| ==> rows[i].month == m) ==> r == rows
  {
    Where(rows, (x: Record) => x.month == m)
  }

  /** The rows whose weekday is the title-cased selector, in their original
      order. */
  function ByDay(rows: seq<Record>, day: string): (r: seq<Record>)
    ensures IsSubsequence(r, rows)
    ensures forall i :: 0 <= i < |r| ==> r[i].dayOfWeek == Title(day)
    ensures forall x :: Count(r, x) == if x.dayOfWeek == Title(day) then Count(rows, x) else 0
    ensures (forall i :: 0 <= i < |rows| ==> rows[i].dayOfWeek == Title(day)) ==> r == rows
  {
    var d := Title(day);
    Where(rows, (x: Record) => x.dayOfWeek == d)
  }

  /** Whether a record passes both selectors; "all" passes everything. */
  predicate Selected(month: string, day: string, x: Record) {
    && (month == ALL || MonthNumber(month) == Some(x.month))
    && (day == ALL || x.dayOfWeek == Title(day))
  }

  /** The month stage followed by the day stage. An unknown month name is an
      error; an unknown day selector only selects nothing. */
  function FilterRows(rows: seq<Record>, month: string, day: string): (res: Result<seq<Record>, LoadError>)
    ensures res.Failure? <==> month != ALL && month !in MONTHS
    ensures res.Failure? ==> res.error == UnknownMonth(month)
    ensures res.Success? ==> IsSubsequence(res.value, rows)
    ensures res.Success? ==> forall i :: 0 <= i < |res.value| ==> Selected(month, day, res.value[i])
    ensures res.Success? ==>
      forall x :: Count(res.value, x) == if Selected(month, day, x) then Count(rows, x) else 0
  {
    var byMonth :=
      if month == ALL then Success(rows)
      else match MonthNumber(month)
        case None => Failure(UnknownMonth(month))
        case Some(m) => Success(ByMonth(rows, m));
    if byMonth.Failure? then byMonth
    else if day == ALL then
      SubsequenceReflexive(rows);
      byMonth
    else
      var both := ByDay(byMonth.value, day);
      SubsequenceReflexive(rows);
      SubsequenceTransitive(both, byMonth.value, rows);
      Success(both)
  }

  /** load_data: derive the file name, read it from `store` (the files
      already parsed into tables), then filter its rows. */
  function LoadData(store: map<string, Table>, city: string, month: string, day: string): (res: Result<Table, LoadError>)
    ensures SourceName(city) !in store ==> res == Failure(FileNotFound(SourceName(city)))
    ensures SourceName(city) in store ==> (res.Failure? <==> month != ALL && month !in MONTHS)
    ensures res.Failure? && SourceName(city) in store ==> res.error == UnknownMonth(month)
    ensures res.Success? ==>
      var t := store[SourceName(city)];
      && res.value.schema == t.schema
      && IsSubsequence(res.value.rows, t.rows)
      && forall x :: Count(res.value.rows, x) == if Selected(month, day, x) then Count(t.rows, x) else 0
    ensures res.Success? && ValidTable(store[SourceName(city)]) ==> ValidTable(res.value)
  {
    var name := SourceName(city);
    if name !in store then Failure(FileNotFound(name))
    else match FilterRows(store[name].rows, month, day)
      case Failure(e) => Failure(e)
      case Success(rows) =>
        assert forall i :: 0 <= i < |rows| ==> Count(rows, rows[i]) > 0;
        Success(Table(store[name].schema, rows))
  }

  /** With "all" on both axes the loaded rows come back unchanged. */
  lemma NoFilterIsIdentity(rows: seq<Record>)
    ensures FilterRows(rows, ALL, ALL) == Success(rows)
  {
  }

  /** Filtering an already filtered result by the same selectors again
      changes nothing. */
  lemma FilterIdempotent(rows: seq<Record>, month: string, day: string)
    requires FilterRows(rows, month, day).Success?
    ensures FilterRows(FilterRows(rows, month, day).value, month, day) == FilterRows(rows, month, day)
  {
    var r := FilterRows(rows, month, day).value;
    assert forall i :: 0 <= i < |r| ==> Selected(month, day, r[i]);
    if month != ALL {
      var m := MonthNumber(month).value;
      assert forall i :: 0 <= i < |r| ==> r[i].month == m;
      assert ByMonth(r, m) == r;
    }
    if day != ALL {
      assert forall i :: 0 <= i < |r| ==> r[i].dayOfWeek == Title(day);
      assert ByDay(r, day) == r;
    }
  }

  /** The filter stages commute: the day stage first and the month stage
      second keeps the same rows in the same order. */
  lemma {:induction false} StagesCommute(rows: seq<Record>, m: int, day: string)
    ensures ByMonth(ByDay(rows, day), m) == ByDay(ByMonth(rows, m), day)
  {
    if rows != [] {
      StagesCommute(rows[1..], m, day);
    }
  }
}
