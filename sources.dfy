/** Resolution of a city name to the file that holds its trips. */
module Sources {

  /** The supported cities and their data files. */
  const CITY_DATA: map<string, string> := map[
    "chicago" := "chicago.csv",
    "new york city" := "new_york_city.csv",
    "washington" := "washington.csv"]

  const EXTENSION: string := ".csv"

  /** `s` with every space replaced by an underscore. */
  function ReplaceSpaces(s: string): (r: string)
    ensures |r| == |s|
    ensures forall i :: 0 <= i < |s| ==> r[i] == if s[i] == ' ' then '_' else s[i]
  {
    if s == [] then [] else [if s[0] == ' ' then '_' else s[0]] + ReplaceSpaces(s[1..])
  }

  /** The file name derived from a city name. */
  function SourceName(city: string): (name: string)
    ensures |name| == |city| + |EXTENSION|
    ensures name[|city|..] == EXTENSION
    ensures ' ' !in name
    ensures forall i :: 0 <= i < |city| && city[i] != ' ' ==> name[i] == city[i]
    ensures forall i :: 0 <= i < |city| && city[i] == ' ' ==> name[i] == '_'
  {
    var base := ReplaceSpaces(city);
    assert forall i :: 0 <= i < |base| ==> base[i] != ' ';
    base + EXTENSION
  }

  /** `SourceName` is determined by its character-wise description. */
  lemma SourceNameIs(city: string, name: string)
    requires |name| == |city| + |EXTENSION| && name[|city|..] == EXTENSION
    requires forall i :: 0 <= i < |city| ==> name[i] == if city[i] == ' ' then '_' else city[i]
    ensures SourceName(city) == name
  {
  }

  /** Deriving the file name from any supported city gives exactly the file
      the table lists for it. */
  lemma SourceNameAgreesWithCityData()
    ensures forall city :: city in CITY_DATA ==> SourceName(city) == CITY_DATA[city]
  {
    forall city | city in CITY_DATA ensures SourceName(city) == CITY_DATA[city] {
      assert city == "chicago" || city == "new york city" || city == "washington";
      if city == "chicago" {
        SourceNameIs(city, "chicago.csv");
      } else if city == "new york city" {
        SourceNameIs(city, "new_york_city.csv");
      } else {
        SourceNameIs(city, "washington.csv");
      }
    }
  }
}
