/** String helpers used by the search endpoints: lower-casing and
    substring search (`str.lower()` and `str.find(...) != -1`). */
module Text {
  import opened Results

  predicate IsUpper(c: char) {
    'A' <= c <= 'Z' || 'А' <= c <= 'Я' || c == 'Ё'
  }

  /** Lower-cases the Latin capitals A-Z and the Cyrillic capitals А-Я and Ё;
      every other character is left as it is. */
  function LowerChar(c: char): (d: char)
    ensures !IsUpper(d)
    ensures !IsUpper(c) ==> d == c
  {
    if 'A' <= c <= 'Z' || 'А' <= c <= 'Я' then (c as int + 32) as char
    else if c == 'Ё' then 'ё'
    else c
  }

  function Lower(s: string): (r: string)
    ensures |r| == |s|
    ensures forall i :: 0 <= i < |s| ==> r[i] == LowerChar(s[i])
  {
    seq(|s|, i requires 0 <= i < |s| => LowerChar(s[i]))
  }

  /** Lower-casing twice is lower-casing once. */
  lemma LowerIdempotent(s: string)
    ensures Lower(Lower(s)) == Lower(s)
  {
  }

  /** `needle` occurs in `s` starting at position `i`. */
  predicate OccursAt(s: string, needle: string, i: int) {
    0 <= i && i + |needle| <= |s| && s[i..i + |needle|] == needle
  }

  /** `s.find(needle) != -1`: the needle occurs somewhere in `s`
      (the empty needle occurs at position 0). */
  function Contains(s: string, needle: string): (r: bool)
    ensures r <==> exists i :: OccursAt(s, needle, i)
    decreases |s|
  {
    if needle <= s then
      assert OccursAt(s, needle, 0);
      true
    else if s == [] then
      false
    else
      var r := Contains(s[1..], needle);
      if r then
        var i :| OccursAt(s[1..], needle, i);
        assert OccursAt(s, needle, i + 1);
        true
      else
        assert forall i :: OccursAt(s, needle, i) ==> i == 0 || OccursAt(s[1..], needle, i - 1);
        false
  }

  /** The search condition shared by the in-memory and the database search:
      the lower-cased query occurs in the lower-cased title, or in the
      lower-cased description when there is one. */
  predicate Matches(title: string, description: Option<string>, query: string) {
    Contains(Lower(title), Lower(query))
    || (description.Some? && Contains(Lower(description.value), Lower(query)))
  }

  /** Searching is case-insensitive: a query and its lower-cased form match
      the same texts. */
  lemma MatchesIgnoresQueryCase(title: string, description: Option<string>, query: string)
    ensures Matches(title, description, query) == Matches(title, description, Lower(query))
  {
    LowerIdempotent(query);
  }
}
