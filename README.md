# US bikeshare explorer: the filter-and-aggregate pipeline in Dafny

`bikeshare_2.py` loads the trip records of one city (Chicago, New York City
or Washington), narrows them to a calendar month and/or a weekday, and
reports four groups of statistics: the popular travel times, the popular
stations and route, the total and mean trip duration, and the user
breakdown (user types, gender, birth years).

This project models that pipeline on values:

- `Records` — a trip `Record` whose `month`, `dayOfWeek` and `hour` are the
  fields the source derives from the start timestamp
  (their ranges are the `ValidRecord` invariant), a `Schema` flag per
  optional column (`hasGender`, `hasBirthYear`) and a `Table` of rows in
  file order. An empty cell of an optional column is `None`.
- `Sources` — `CITY_DATA` and the file-name derivation of `load_data`.
- `Loading` — `load_data`: the file store is a parameter (a map from file
  name to the already-parsed table), followed by the month stage and the
  day stage, each a boolean-mask selection (`Seqs.Where`). A month name
  outside `january`..`june` is the `UnknownMonth` error (the source's
  `months.index` raises); a day selector is title-cased and compared, so it
  never fails but may select nothing.
- `Text` — Python's `str.title` on ASCII letters: a letter is upper case at
  the start of a word and lower case after another letter.
- `Frequency` — the column statistics pandas provides: `Mode` (any value
  of maximal count), `Min`, `Max` and `ValueCounts` (each distinct value
  with its count, most frequent first).
- `Stats` — `time_stats`, `station_stats`, `trip_duration_stats` and
  `user_stats`. Over an empty record set the modes and the mean are
  `Failure(EmptyColumn(..))` (the source stops with an error there), the
  total is 0, and the user breakdown still succeeds. Gender and birth-year
  results are `Unavailable` when the column is absent, and birth years are
  also `Unavailable` when no year after 1916 is recorded.
- `Scenarios` — the worked examples: a January-heavy month column, durations
  100/200/300, the route "A to B", birth years 1900/1990/1990, and the
  degraded reports.

The model follows the code: the file name is derived by replacing spaces
only (no lower-casing); `load_data` never consults `CITY_DATA` (a lemma
shows the two agree on the three cities); a missing column is not checked
at load time; the empty-set case of a mode or a mean is an uncaught error in
the code, which the model reports as a `Failure`; and pandas breaks ties
between modes by value, not by first occurrence, so the model leaves the
tie-break open.

## Model

| member | source | states |
|---|---|---|
| `Sources.ReplaceSpaces` | bikeshare_2.py:54 | the result has the input's length and each space, and only a space, becomes an underscore |
| `Sources.SourceName` | bikeshare_2.py:54 | the file name is the city with spaces replaced plus ".csv": it has no space, ends in ".csv", and keeps every other character in place |
| `Sources.SourceNameAgreesWithCityData` | bikeshare_2.py:9-11 | for every city of the table, the derived file name is exactly the table's file |
| `Loading.IndexOf` | bikeshare_2.py:72 | `list.index`: found exactly when present, at a position holding the value with no earlier occurrence |
| `Loading.MonthNumber` | bikeshare_2.py:69-72 | defined exactly for the six month names, giving a month in 1..6 whose name is that entry |
| `Loading.MonthNumbersInOrder` | bikeshare_2.py:71-72 | january..june map to 1..6 in order |
| `Text.Title` | bikeshare_2.py:80 | `day.title()`: same length, non-letters kept, each letter the same letter up to case, upper case at the start of a word and lower case after a letter |
| `Text.TitleIdempotent` | bikeshare_2.py:80 | title-casing an already title-cased selector changes nothing |
| `Text.TitleOfWord` | bikeshare_2.py:80 | a word of letters title-cases to the spelling with only its first letter capitalised, whatever the case of its letters |
| `Records.WeekdaysAreTitled` | bikeshare_2.py:64 | each weekday name the timestamp parser produces is its own title case |
| `Records.ValidRecord` | bikeshare_2.py:63-65 | a record whose derived fields are in range (month 1..12, one of the seven weekday names, hour 0..23) and whose missing columns hold no values has a weekday that is its own title case, so a title-cased selector can match it |
| `Records.RouteKey` | bikeshare_2.py:122 | the route key is the start station, then " to ", then the end station |
| `Loading.DaySelectorsMatchWeekdays` | bikeshare_2.py:35 | every lower-case weekday selector title-cases to the weekday name the records carry |
| `Seqs.Where` | bikeshare_2.py:75 | a mask selection is an order-preserving subsequence holding only matching elements, every matching element as often as in the input, and is the identity when everything matches |
| `Loading.ByMonth` | bikeshare_2.py:75 | the month stage keeps exactly the rows of that month, in order |
| `Loading.ByDay` | bikeshare_2.py:80 | the day stage keeps exactly the rows whose weekday equals the title-cased selector, in order |
| `Loading.FilterRows` | bikeshare_2.py:68-82 | fails exactly for a concrete month outside the list; otherwise an order-preserving subsequence in which a row survives, as often as it occurs, exactly when it matches both selectors ("all" matches everything) |
| `Loading.LoadData` | bikeshare_2.py:53-82 | a missing file fails with its derived name before the month is looked at; otherwise the filter result with the source's columns, and valid rows stay valid |
| `Loading.NoFilterIsIdentity` | bikeshare_2.py:69-80 | "all" for month and day returns the loaded rows unchanged |
| `Loading.FilterIdempotent` | bikeshare_2.py:68-82 | filtering a filtered result by the same selectors returns it unchanged |
| `Loading.StagesCommute` | bikeshare_2.py:74-80 | applying the day stage before the month stage gives the same rows in the same order |
| `Seqs.Present` | bikeshare_2.py:162 | dropping empty cells keeps every value as often as it was recorded and removes exactly the empty cells |
| `Seqs.Dedup` | bikeshare_2.py:157 | the distinct values of a column: no repeats, exactly the column's values |
| `Frequency.Mode` | bikeshare_2.py:92 | an empty column has no mode; otherwise the mode occurs in the column and no value occurs more often |
| `Frequency.StrictMaximumIsMode` | bikeshare_2.py:92 | a value occurring strictly more often than all others is the mode and the only one |
| `Frequency.Min` | bikeshare_2.py:170 | the minimum occurs in the column and is at most every element |
| `Frequency.Max` | bikeshare_2.py:171 | the maximum occurs in the column and is at least every element |
| `Frequency.ValueCounts` | bikeshare_2.py:157 | each listed count is the number of occurrences of its value and positive; the listed values are distinct and exactly the column's values; counts do not increase; they sum to the column length |
| `Frequency.SumCountsCovers` | bikeshare_2.py:157 | summing the counts of the distinct values gives the number of elements |
| `Stats.TimeStats` | bikeshare_2.py:85-101 | fails exactly on an empty record set; otherwise month, weekday and hour are each a mode of their column |
| `Stats.TimeStatsInRange` | bikeshare_2.py:64-66 | on valid rows the popular month is in 1..12, the popular day a weekday name, the popular hour in 0..23 |
| `Stats.PopularTimeIsSelected` | bikeshare_2.py:75-100 | after a concrete month (day) filter the popular month (weekday) is the selected one |
| `Stats.StationStats` | bikeshare_2.py:107-124 | fails exactly on an empty record set; otherwise the start station, end station and "start to end" key are each a mode of their column |
| `Stats.DurationStats` | bikeshare_2.py:130-144 | the total is the sum of the durations, 0 when empty; the mean fails exactly when empty and otherwise mean times count equals the total |
| `Stats.MeanWithinRange` | bikeshare_2.py:142 | the mean lies between the shortest and the longest trip |
| `Stats.Sum` | bikeshare_2.py:137 | the total of no durations is 0 and the total of non-negative durations is non-negative |
| `Stats.TotalOfConcatenation` | bikeshare_2.py:137 | the total of two record sets together is the sum of their totals |
| `Stats.SumAtLeast` | bikeshare_2.py:137 | a lower bound on every duration times the count bounds the total from below |
| `Stats.SumAtMost` | bikeshare_2.py:137 | an upper bound on every duration times the count bounds the total from above |
| `Stats.UserTypeCounts` | bikeshare_2.py:156-157 | one entry per user type occurring in the rows, counting its rows, positive, distinct, non-increasing, summing to the number of rows |
| `Stats.GenderCounts` | bikeshare_2.py:160-165 | unavailable exactly without a gender column; otherwise one entry per recorded gender with the number of rows recording it, positive, distinct, non-increasing, summing to the number of rows with a gender |
| `Stats.EligibleYears` | bikeshare_2.py:170-172 | only years strictly after 1916, each with the number of rows recording it |
| `Stats.BirthYearStats` | bikeshare_2.py:167-178 | unavailable exactly without a birth-year column or without an eligible year; otherwise earliest and latest are the extremes and most common a mode of the eligible years, with 1916 < earliest <= most common <= latest |
| `Stats.UserStats` | bikeshare_2.py:150-181 | user types are always counted over all rows; gender and birth years degrade to unavailable independently |
| `Scenarios.PopularMonthOfFive` | bikeshare_2.py:92 | three January and two February trips give January as popular month |
| `Scenarios.DurationsOfThree` | bikeshare_2.py:137-142 | durations 100, 200, 300 give total 600 and mean 200 |
| `Scenarios.PopularRouteOfThree` | bikeshare_2.py:122-123 | routes A-B, A-B, C-D give "A to B" |
| `Scenarios.BirthYearsOfThree` | bikeshare_2.py:170-172 | birth years 1900, 1990, 1990 give 1990 for earliest, latest and most common |
| `Scenarios.DegradedReports` | bikeshare_2.py:161-165 | no gender column gives unavailable; an empty set has total 0 and no mode or mean |

## Left out

- `get_filters` and `main` (the prompt loops, the restart loop and the five-row pagination): interactive console I/O.
- Reading the CSV file and parsing the start timestamp: the store parameter holds the tables already parsed, with month, weekday and hour as given fields; a malformed timestamp is not modelled.
- All printed output, the rounding of the printed total and mean (the mean is kept as an exact real), and the commented-out timing code.
- The `station_combination` column written into the caller's frame: the route key is the derived value `RouteKey`.
- Missing cells in the required columns (stations, duration, user type): every row has them.
- Durations and birth years are whole numbers here; the source reads them as floating point.
- `Text.Title`: covers ASCII letters only; a non-ASCII character is kept unchanged and counts as uncased, so an ASCII letter right after one is capitalised where Python would lower-case it. The weekday selectors are ASCII.
- `Frequency.Mode`: does not fix which of several equally frequent values is returned; pandas returns the smallest.
- `Frequency.ValueCounts`: does not fix the order among values with equal counts.
