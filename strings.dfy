/**
 * The few string operations the catalogue page relies on: an anchored prefix
 * test (a regular expression beginning with `^`), `String.prototype.includes`
 * and `String.prototype.toLowerCase` restricted to ASCII letters.
 */
module Strings {

  /** `s` begins with `prefix`. */
  predicate StartsWith(s: string, prefix: string) {
    |prefix| <= |s| && s[..|prefix|] == prefix
  }

  /** `q` occurs in `t` starting at position `i`. */
  predicate OccursAt(t: string, q: string, i: int) {
    0 <= i && i + |q| <= |t| && t[i..i + |q|] == q
  }

  /** `t.includes(q)`: tries every start position from the left. */
  function Contains(t: string, q: string): (r: bool)
    ensures r <==> exists i :: OccursAt(t, q, i)
    decreases |t|
  {
    if StartsWith(t, q) then
      assert OccursAt(t, q, 0);
      true
    else if |t| == 0 then
      false
    else
      var r := Contains(t[1..], q);
      if r then
        var i :| OccursAt(t[1..], q, i);
        assert t[1..][i..i + |q|] == t[i + 1..i + 1 + |q|];
        assert OccursAt(t, q, i + 1);
        r
      else
        forall i | OccursAt(t, q, i) ensures OccursAt(t[1..], q, i - 1) {
          assert i != 0;
          assert t[1..][i - 1..i - 1 + |q|] == t[i..i + |q|];
        }
        r
  }

  /** Lower-cases one character: `A`..`Z` become `a`..`z`, everything else is kept. */
  function LowerChar(c: char): (r: char)
    ensures !('A' <= r <= 'Z')
    ensures 'A' <= c <= 'Z' ==> r as int == c as int + 32
    ensures 'a' <= r <= 'z' ==> r == c || r as int == c as int + 32
    ensures !('A' <= c <= 'Z') ==> r == c
  {
    if 'A' <= c <= 'Z' then (c as int + 32) as char else c
  }

  /** `s.toLowerCase()` on the ASCII letters: same length, no upper-case letter left. */
  function ToLower(s: string): (r: string)
    ensures |r| == |s|
    ensures forall i :: 0 <= i < |r| ==> r[i] == LowerChar(s[i])
  {
    seq(|s|, i requires 0 <= i < |s| => LowerChar(s[i]))
  }

}
