/** The two string operations the search boxes use: `toLowerCase` (modelled on ASCII letters only)
    and `includes` (substring containment). */
module Text {

  /** `toLowerCase` on one character: 'A'..'Z' map to 'a'..'z', everything else is kept. */
  function LowerChar(c: char): (d: char)
    ensures 'A' <= c <= 'Z' ==> 'a' <= d <= 'z'
    ensures 'A' <= c <= 'Z' ==> d as int - 'a' as int == c as int - 'A' as int
    ensures !('A' <= c <= 'Z') ==> d == c
  {
    if 'A' <= c <= 'Z' then (c as int + 32) as char else c
  }

  /** `toLowerCase`: character by character, length-preserving. */
  function Lower(s: string): (r: string)
    ensures |r| == |s|
    ensures forall i :: 0 <= i < |s| ==> r[i] == LowerChar(s[i])
  {
    if s == [] then [] else [LowerChar(s[0])] + Lower(s[1..])
  }

  predicate StartsWith(s: string, prefix: string)
  {
    |prefix| <= |s| && s[..|prefix|] == prefix
  }

  /** `haystack.includes(needle)`: `needle` occurs at some position of `haystack`. */
  predicate Contains(haystack: string, needle: string)
    decreases |haystack|
  {
    StartsWith(haystack, needle) || (haystack != [] && Contains(haystack[1..], needle))
  }

  /** `a.toLowerCase().includes(b.toLowerCase())`: the case-insensitive test both search boxes use. */
  predicate ContainsIgnoringCase(haystack: string, needle: string)
  {
    Contains(Lower(haystack), Lower(needle))
  }

  /** Every string includes the empty string, whatever its case. */
  lemma EmptyNeedle(haystack: string)
    ensures ContainsIgnoringCase(haystack, "")
  {
    assert StartsWith(Lower(haystack), "");
  }
}
