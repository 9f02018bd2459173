/** The three JavaScript string operations the catalog filter relies on:
    `toLowerCase`, `startsWith` and `includes`, over `string` (`seq<char>`).
    Lower-casing is restricted to ASCII letters. */
module JsText {

  /** An ASCII upper-case letter. */
  predicate IsUpper(c: char) {
    'A' <= c <= 'Z'
  }

  /** `toLowerCase` on one character: an ASCII upper-case letter becomes its
      lower-case partner, every other character is left alone. */
  function LowerChar(c: char): (r: char)
    ensures !IsUpper(r)
    ensures !IsUpper(c) ==> r == c
    ensures IsUpper(c) ==> 'a' <= r <= 'z' && r as int - 'a' as int == c as int - 'A' as int
  {
    if IsUpper(c) then (c as int - 'A' as int + 'a' as int) as char else c
  }

  /** `s.toLowerCase()`: same length, character by character, and free of
      upper-case letters. */
  function Lower(s: string): (r: string)
    ensures |r| == |s|
    ensures forall i :: 0 <= i < |s| ==> r[i] == LowerChar(s[i])
    ensures forall i :: 0 <= i < |r| ==> !IsUpper(r[i])
  {
    seq(|s|, i requires 0 <= i < |s| => LowerChar(s[i]))
  }

  /** `s.startsWith(p)`: `s` is at least as long as `p` and agrees with it
      position by position. */
  function StartsWith(s: string, p: string): (r: bool)
    ensures r <==> |p| <= |s| && forall i :: 0 <= i < |p| ==> s[i] == p[i]
  {
    |p| <= |s| && s[..|p|] == p
  }

  /** `q` occurs in `s` starting at position `k`. */
  predicate OccursAt(s: string, q: string, k: int) {
    0 <= k && k + |q| <= |s| && s[k..k + |q|] == q
  }

  /** `s.includes(q)`, scanning `s` from the left: true exactly when `q`
      occurs somewhere in `s` (the empty string occurs everywhere). */
  function Includes(s: string, q: string): (r: bool)
    ensures r <==> exists k :: OccursAt(s, q, k)
    decreases |s|
  {
    if StartsWith(s, q) then
      assert OccursAt(s, q, 0);
      true
    else if |s| == 0 then
      false
    else
      var rest := Includes(s[1..], q);
      assert forall k :: OccursAt(s[1..], q, k) ==> OccursAt(s, q, k + 1) by {
        forall k | OccursAt(s[1..], q, k)
          ensures OccursAt(s, q, k + 1)
        {
          assert s[1..][k..k + |q|] == s[k + 1..k + 1 + |q|];
        }
      }
      assert forall k :: OccursAt(s, q, k) && k > 0 ==> OccursAt(s[1..], q, k - 1) by {
        forall k | OccursAt(s, q, k) && k > 0
          ensures OccursAt(s[1..], q, k - 1)
        {
          assert s[1..][k - 1..k - 1 + |q|] == s[k..k + |q|];
        }
      }
      rest
  }

  /** Any substring of a lower-cased string is free of ASCII capitals, so
      a query holding an ASCII capital (A-Z) is included in no lower-cased
      string. */
  lemma UpperNeverIncludedInLower(s: string, q: string, i: int)
    requires 0 <= i < |q| && IsUpper(q[i])
    ensures !Includes(Lower(s), q)
  {
  }
}
