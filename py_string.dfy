/**
 The two Python string methods that the post generator's slug is built
 from: `str.lower()`, restricted to ASCII letters, and `str.replace(old, new)`
 with a non-empty pattern, which rewrites occurrences left to right without
 overlap.
 */
module PyString {

  predicate IsUpper(c: char) {
    'A' <= c <= 'Z'
  }

  /** ASCII case folding of one character; every other character is kept. */
  function LowerChar(c: char): (r: char)
    ensures !IsUpper(r)
    ensures IsUpper(c) ==> r as int == c as int + 32
    ensures !IsUpper(c) ==> r == c
  {
    if IsUpper(c) then (c as int + 32) as char else c
  }

  /** `s.lower()`: the same string with every upper-case ASCII letter folded. */
  function Lower(s: string): (r: string)
    ensures |r| == |s|
    ensures forall i :: 0 <= i < |s| ==> r[i] == LowerChar(s[i])
  {
    if s == [] then [] else [LowerChar(s[0])] + Lower(s[1..])
  }

  /**
   `s.replace(pat, rep)`: scan from the left; at a position where `pat`
   starts, emit `rep` and skip past the whole match, otherwise keep one
   character and move on.
   */
  function Replace(s: string, pat: string, rep: string): (r: string)
    requires |pat| > 0
    ensures |rep| == |pat| ==> |r| == |s|
    ensures rep == pat ==> r == s
    decreases |s|
  {
    if |s| < |pat| then s
    else if s[..|pat|] == pat then rep + Replace(s[|pat|..], pat, rep)
    else [s[0]] + Replace(s[1..], pat, rep)
  }

  /** Replacing one character by one character maps the string pointwise. */
  lemma {:induction false} ReplaceCharAt(s: string, a: char, b: char)
    ensures |Replace(s, [a], [b])| == |s|
    ensures forall i :: 0 <= i < |s| ==>
      Replace(s, [a], [b])[i] == (if s[i] == a then b else s[i])
  {
    if |s| > 0 {
      ReplaceCharAt(s[1..], a, b);
      var head := if s[0] == a then b else s[0];
      assert s[..1] == [s[0]];
      assert Replace(s, [a], [b]) == [head] + Replace(s[1..], [a], [b]);
    }
  }
}
