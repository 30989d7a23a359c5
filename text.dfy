/**
 * String helpers the viewer relies on: `toLowerCase`, `endsWith` and `includes`.
 * Case folding covers the ASCII letters only.
 */
module Text {

  /** Lower-cases one character: 'A'..'Z' map to 'a'..'z', everything else is kept. */
  function Lower(c: char): char {
    if 'A' <= c <= 'Z' then (c as int + 32) as char else c
  }

  /** `s.toLowerCase()`, character by character. */
  function ToLower(s: string): (r: string)
    ensures |r| == |s|
    ensures forall i :: 0 <= i < |s| ==> r[i] == Lower(s[i])
  {
    if s == [] then [] else [Lower(s[0])] + ToLower(s[1..])
  }

  /** `s.endsWith(suffix)`. */
  predicate EndsWith(s: string, suffix: string) {
    |suffix| <= |s| && s[|s| - |suffix|..] == suffix
  }

  /** `s.startsWith(prefix)`. */
  predicate StartsWith(s: string, prefix: string) {
    |prefix| <= |s| && s[..|prefix|] == prefix
  }

  /** `s.includes(sub)`: some position of `s` starts a copy of `sub`. */
  function Includes(s: string, sub: string): (r: bool)
    ensures r <==> exists i :: 0 <= i <= |s| - |sub| && StartsWith(s[i..], sub)
    decreases |s|
  {
    if |sub| > |s| then false
    else if StartsWith(s, sub) then (assert StartsWith(s[0..], sub); true)
    else
      var rest := Includes(s[1..], sub);
      assert forall i :: 1 <= i <= |s| - |sub| ==> s[i..] == s[1..][i - 1..];
      assert rest ==> exists i :: 1 <= i <= |s| - |sub| && StartsWith(s[i..], sub);
      rest
  }

  /** Every string includes the empty string, so an empty filter keeps everything. */
  lemma IncludesEmpty(s: string)
    ensures Includes(s, "")
  {
    assert StartsWith(s[0..], "");
  }

  /** No lower-cased name ends with both document suffixes: ".atlas" and ".json" end in different letters. */
  lemma AtlasIsNotJson(s: string)
    ensures EndsWith(s, ".atlas") ==> !EndsWith(s, ".json")
  {
    if EndsWith(s, ".atlas") {
      assert s[|s| - 1] == s[|s| - 6..][5] == 's';
      assert s[|s| - 5..][4] != 'n';
    }
  }
}
