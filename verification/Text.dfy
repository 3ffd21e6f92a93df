/** Text helpers shared by the models: case mapping, substrings, trimming and result values. */
module Text {

  datatype Option<+T> = None | Some(value: T)

  datatype Result<+T, +E> = Ok(value: T) | Err(error: E)

  /** Applies a case mapping to every character; the mapping itself is left arbitrary. */
  function Fold(f: char -> char, s: string): (r: string)
    ensures |r| == |s| && forall i :: 0 <= i < |s| ==> r[i] == f(s[i])
  {
    seq(|s|, i requires 0 <= i < |s| => f(s[i]))
  }

  predicate HasPrefix(s: string, part: string) {
    part <= s
  }

  predicate HasSuffix(s: string, part: string) {
    |part| <= |s| && s[|s| - |part|..] == part
  }

  /** Whether `part` occurs in `s` as a contiguous run of characters. */
  ghost predicate Occurs(part: string, s: string) {
    exists k :: OccursAt(part, s, k)
  }

  ghost predicate OccursAt(part: string, s: string, k: int) {
    0 <= k <= |s| && part <= s[k..]
  }

  /** Index of the first occurrence of `part`, or -1. */
  function IndexOf(s: string, part: string): (r: int)
    ensures r >= 0 ==> OccursAt(part, s, r)
    ensures forall k :: (r < 0 || k < r) ==> !OccursAt(part, s, k)
    ensures -1 <= r <= |s|
  {
    if part <= s then assert s[0..] == s; 0
    else if s == [] then -1
    else
      var k := IndexOf(s[1..], part);
      assert forall j :: 1 <= j <= |s| ==> s[1..][j - 1..] == s[j..];
      assert forall j :: 1 <= j ==> (OccursAt(part, s, j) <==> OccursAt(part, s[1..], j - 1));
      if k < 0 then -1 else k + 1
  }

  /** Drops leading and trailing white space, as decided by `space`. */
  function TrimSpace(space: char -> bool, s: string): (r: string)
    ensures r == [] || (!space(r[0]) && !space(r[|r| - 1]))
  {
    if s == [] then []
    else if space(s[0]) then TrimSpace(space, s[1..])
    else if space(s[|s| - 1]) then TrimSpace(space, s[..|s| - 1])
    else s
  }
}
