/** String helpers over `seq<char>`: substring occurrence, Python's
    `str.rsplit(sep, 1)` search and ASCII upper-casing. */
module Strings {
  import opened Wrappers

  /** `sep` occurs in `s` starting at index `i`. */
  predicate OccursAt(s: string, sep: string, i: nat) {
    i + |sep| <= |s| && s[i..i + |sep|] == sep
  }

  /** Python's `sep in s`. */
  predicate Contains(s: string, sep: string) {
    exists i: nat :: i <= |s| && OccursAt(s, sep, i)
  }

  /** Index of the last occurrence of `sep` in `s`, the position
      `str.rsplit(sep, 1)` cuts at (Python's `str.rfind`). */
  function LastIndexOf(s: string, sep: string): (r: Option<nat>)
    requires |sep| > 0
    ensures r.Some? ==> OccursAt(s, sep, r.value)
    ensures r.Some? ==> forall j: nat :: r.value < j ==> !OccursAt(s, sep, j)
    ensures r.None? <==> !Contains(s, sep)
    decreases |s|
  {
    if |s| < |sep| then None
    else if s[|s| - |sep|..] == sep then
      assert OccursAt(s, sep, |s| - |sep|);
      Some(|s| - |sep|)
    else
      var r := LastIndexOf(s[..|s| - 1], sep);
      forall j: nat | OccursAt(s, sep, j)
        ensures OccursAt(s[..|s| - 1], sep, j)
      {
        assert j + |sep| < |s|;
        assert s[..|s| - 1][j..j + |sep|] == s[j..j + |sep|];
      }
      if r.Some? then
        assert s[..|s| - 1][r.value..r.value + |sep|] == s[r.value..r.value + |sep|];
        r
      else
        r
  }

  /** An occurrence inside a suffix is an occurrence in the whole string. */
  lemma OccursInSuffix(s: string, sep: string, k: nat, j: nat)
    requires k <= |s|
    requires OccursAt(s[k..], sep, j)
    ensures OccursAt(s, sep, k + j)
  {
    assert s[k..][j..j + |sep|] == s[k + j..k + j + |sep|];
  }

  predicate IsAsciiLower(c: char) { 'a' <= c <= 'z' }

  predicate IsAsciiUpper(c: char) { 'A' <= c <= 'Z' }

  /** JavaScript's `toUpperCase` on one character, restricted to ASCII. */
  function AsciiUpper(c: char): (u: char)
    ensures IsAsciiLower(c) ==> IsAsciiUpper(u) && u as int == c as int - 32
    ensures !IsAsciiLower(c) ==> u == c
  {
    if IsAsciiLower(c) then (c as int - 32) as char else c
  }
}
