/** The few JavaScript built-ins the relay and the editor rely on, with the
    semantics of the ECMAScript library functions they call. */
module JsBuiltins {

  /** `s.startsWith(p)` */
  predicate StartsWith(s: string, p: string) {
    |p| <= |s| && s[..|p|] == p
  }

  /** `pat` occurs in `s` at position `i`. */
  predicate OccursAt(s: string, pat: string, i: int) {
    0 <= i && i + |pat| <= |s| && s[i..i + |pat|] == pat
  }

  /** `s.indexOf(pat)`: the first position where `pat` occurs, or -1. */
  function IndexOfText(s: string, pat: string): (r: int)
    ensures -1 <= r
    ensures r == -1 <==> forall i :: 0 <= i <= |s| ==> !OccursAt(s, pat, i)
    ensures r >= 0 ==> OccursAt(s, pat, r) && forall i :: 0 <= i < r ==> !OccursAt(s, pat, i)
    decreases |s|
  {
    if |s| < |pat| then
      -1
    else if s[..|pat|] == pat then
      assert OccursAt(s, pat, 0);
      0
    else
      var r := IndexOfText(s[1..], pat);
      assert forall i :: 1 <= i <= |s| ==> (OccursAt(s, pat, i) <==> OccursAt(s[1..], pat, i - 1)) by {
        forall i | 1 <= i <= |s| ensures OccursAt(s, pat, i) <==> OccursAt(s[1..], pat, i - 1) {
          if i + |pat| <= |s| {
            assert s[1..][i - 1..i - 1 + |pat|] == s[i..i + |pat|];
          }
        }
      }
      if r < 0 then -1
      else
        assert OccursAt(s, pat, r + 1);
        r + 1
  }

  /** `s.replace(pat, rep)` with a string pattern: only the FIRST occurrence is
      replaced; without an occurrence the string is returned unchanged. */
  function ReplaceFirst(s: string, pat: string, rep: string): (r: string)
    ensures IndexOfText(s, pat) == -1 ==> r == s
    ensures forall i :: 0 <= i <= |s| && OccursAt(s, pat, i) && (forall i' :: 0 <= i' < i ==> !OccursAt(s, pat, i')) ==>
              r == s[..i] + rep + s[i + |pat|..]
  {
    var i := IndexOfText(s, pat);
    if i < 0 then s else s[..i] + rep + s[i + |pat|..]
  }

  /** `a.indexOf(x)` on an array: the first index holding `x`, or -1. */
  function IndexOf<T(==)>(a: seq<T>, x: T): (r: int)
    ensures -1 <= r < |a|
    ensures r == -1 <==> x !in a
    ensures r >= 0 ==> a[r] == x && x !in a[..r]
  {
    if a == [] then -1
    else if a[0] == x then 0
    else
      var r := IndexOf(a[1..], x);
      assert a[1..][..if r < 0 then 0 else r] == a[1..if r < 0 then 1 else r + 1];
      if r < 0 then -1 else r + 1
  }

  /** `a.splice(start, 1)` viewed through its effect on `a`: a negative start
      counts from the end (clamped at 0), a start at or past the end removes
      nothing. */
  function SpliceOne<T>(a: seq<T>, start: int): (r: seq<T>)
    ensures 0 <= start < |a| ==> r == a[..start] + a[start + 1..]
    ensures start >= |a| ==> r == a
    ensures -|a| <= start < 0 ==> r == a[..|a| + start] + a[|a| + start + 1..]
    ensures start < -|a| && a != [] ==> r == a[1..]
    ensures |r| == if a != [] && start < |a| then |a| - 1 else |a|
  {
    var at := if start >= 0 then start else if |a| + start < 0 then 0 else |a| + start;
    if at < |a| then a[..at] + a[at + 1..] else a
  }
}
