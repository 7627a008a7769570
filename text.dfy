/** Python's title-casing of a string, over ASCII letters. */
module Text {

  predicate IsCased(c: char) {
    'a' <= c <= 'z' || 'A' <= c <= 'Z'
  }

  predicate IsUpper(c: char) {
    'A' <= c <= 'Z'
  }

  predicate IsLower(c: char) {
    'a' <= c <= 'z'
  }

  function Upper(c: char): char {
    if 'a' <= c <= 'z' then (c as int - 32) as char else c
  }

  function Lower(c: char): char {
    if 'A' <= c <= 'Z' then (c as int + 32) as char else c
  }

  /** Title case: a letter that starts a word is upper-cased, a letter that
      follows a letter is lower-cased, anything else is kept. */
  function Title(s: string): (r: string)
    ensures |r| == |s|
    ensures forall i :: 0 <= i < |s| && !IsCased(s[i]) ==> r[i] == s[i]
    ensures forall i :: 0 <= i < |s| && IsCased(s[i]) ==> Lower(r[i]) == Lower(s[i])
    ensures forall i :: 0 <= i < |s| && IsCased(s[i]) && (i == 0 || !IsCased(s[i - 1])) ==> IsUpper(r[i])
    ensures forall i :: 0 < i < |s| && IsCased(s[i]) && IsCased(s[i - 1]) ==> IsLower(r[i])
  {
    assert forall c :: IsCased(c) ==> IsUpper(Upper(c)) && IsLower(Lower(c));
    seq(|s|, i requires 0 <= i < |s| =>
      if !IsCased(s[i]) then s[i]
      else if i > 0 && IsCased(s[i - 1]) then Lower(s[i])
      else Upper(s[i]))
  }

  /** A word of letters title-cases to the capitalised spelling `t` of it. */
  lemma TitleOfWord(s: string, t: string)
    requires |s| == |t| > 0
    requires forall k :: 0 <= k < |s| ==> IsCased(s[k]) && Lower(s[k]) == Lower(t[k])
    requires IsUpper(t[0])
    requires forall k :: 0 < k < |t| ==> IsLower(t[k])
    ensures Title(s) == t
  {
    var r := Title(s);
    forall k | 0 <= k < |s|
      ensures r[k] == t[k]
    {
      assert IsCased(r[k]);
    }
  }

  /** Title-casing twice changes nothing more. */
  lemma TitleIdempotent(s: string)
    ensures Title(Title(s)) == Title(s)
  {
  }
}
