/** The two string operations the search box relies on: `toLowerCase` and `indexOf`.
    Lower-casing is modelled for ASCII only: 'A'..'Z' become 'a'..'z' and every
    other character is left as it is. */
module JsString {

  /** Lower-casing of one character. */
  function LowerChar(c: char): (r: char)
    ensures 'A' <= c <= 'Z' ==> 'a' <= r <= 'z' && r as int - c as int == 'a' as int - 'A' as int
    ensures !('A' <= c <= 'Z') ==> r == c
    ensures !('A' <= r <= 'Z')
  {
    if 'A' <= c <= 'Z' then (c as int - 'A' as int + 'a' as int) as char else c
  }

  /** `s.toLowerCase()`. */
  function ToLower(s: string): (r: string)
    ensures |r| == |s|
    ensures forall i :: 0 <= i < |s| ==> r[i] == LowerChar(s[i])
  {
    seq(|s|, i requires 0 <= i < |s| => LowerChar(s[i]))
  }

  lemma ToLowerIdempotent(s: string)
    ensures ToLower(ToLower(s)) == ToLower(s)
  {
  }

  /** `t` occurs in `s` starting at index `i`. */
  predicate OccursAt(s: string, t: string, i: int)
  {
    0 <= i && i + |t| <= |s| && s[i..i + |t|] == t
  }

  /** `t` is a substring of `s`. */
  ghost predicate Contains(s: string, t: string)
  {
    exists i :: OccursAt(s, t, i)
  }

  lemma OccursShift(s: string, t: string, i: int)
    requires s != [] && 0 <= i
    ensures OccursAt(s[1..], t, i) <==> OccursAt(s, t, i + 1)
  {
  }

  /** `s.indexOf(t)`: the first index at which `t` occurs in `s`, or -1 when it does not occur. */
  function IndexOf(s: string, t: string): (r: int)
    ensures r == -1 || OccursAt(s, t, r)
    ensures r == -1 <==> !Contains(s, t)
    ensures forall i :: 0 <= i < r ==> !OccursAt(s, t, i)
    decreases |s|
  {
    if |t| <= |s| && s[..|t|] == t then
      assert OccursAt(s, t, 0);
      0
    else if s == [] then
      assert forall i :: !OccursAt(s, t, i);
      -1
    else
      var r := IndexOf(s[1..], t);
      assert forall i | 0 <= i :: OccursAt(s[1..], t, i) <==> OccursAt(s, t, i + 1) by {
        forall i | 0 <= i ensures OccursAt(s[1..], t, i) <==> OccursAt(s, t, i + 1) {
          OccursShift(s, t, i);
        }
      }
      assert !OccursAt(s, t, 0);
      if r == -1 then
        assert forall i :: !OccursAt(s, t, i) by {
          forall i ensures !OccursAt(s, t, i) {
            if i > 0 {
              assert !OccursAt(s[1..], t, i - 1);
            }
          }
        }
        -1
      else
        assert forall i :: 0 < i < r + 1 ==> !OccursAt(s, t, i) by {
          forall i | 0 < i < r + 1 ensures !OccursAt(s, t, i) {
            assert !OccursAt(s[1..], t, i - 1);
          }
        }
        r + 1
  }

  /** Every occurrence of a non-empty `t` starts with `t`'s first character. */
  lemma ContainsFirstChar(s: string, t: string)
    requires t != []
    ensures Contains(s, t) ==> t[0] in s
  {
  }
}
