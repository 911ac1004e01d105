/** Character-sequence tests the exception handler relies on: a model of
    Java's `String.contains`, with its independent characterisation as "some
    position where the needle occurs". */
module Text {

  /** `needle` occurs in `s` starting at position `i`. */
  ghost predicate OccursAt(s: string, needle: string, i: int) {
    0 <= i && i + |needle| <= |s| && s[i..i + |needle|] == needle
  }

  /** `s` begins with `prefix`. */
  predicate StartsWith(s: string, prefix: string) {
    |prefix| <= |s| && s[..|prefix|] == prefix
  }

  /** Java's `s.contains(needle)`: scan the start positions from left to right. */
  function Contains(s: string, needle: string): (b: bool)
    ensures b <==> exists i :: OccursAt(s, needle, i)
    decreases |s|
  {
    if StartsWith(s, needle) then
      assert OccursAt(s, needle, 0);
      true
    else if |s| == 0 then
      false
    else
      var rest := Contains(s[1..], needle);
      ShiftOccurrence(s, needle);
      rest
  }

  /** Occurrences in `s` at a positive position are exactly the occurrences in
      `s[1..]`, shifted by one; the first position is covered by `StartsWith`. */
  lemma ShiftOccurrence(s: string, needle: string)
    requires |s| > 0
    requires !StartsWith(s, needle)
    ensures (exists i :: OccursAt(s, needle, i)) <==> (exists j :: OccursAt(s[1..], needle, j))
  {
    if i :| OccursAt(s, needle, i) {
      assert s[1..][i - 1..i - 1 + |needle|] == s[i..i + |needle|];
      assert OccursAt(s[1..], needle, i - 1);
    }
    if j :| OccursAt(s[1..], needle, j) {
      assert s[1..][j..j + |needle|] == s[j + 1..j + 1 + |needle|];
      assert OccursAt(s, needle, j + 1);
    }
  }

  /** A needle placed between any prefix and suffix is found by `Contains`. */
  lemma ContainsInfix(prefix: string, needle: string, suffix: string)
    ensures Contains(prefix + needle + suffix, needle)
  {
    var s := prefix + needle + suffix;
    assert s[|prefix|..|prefix| + |needle|] == needle;
    assert OccursAt(s, needle, |prefix|);
  }
}
