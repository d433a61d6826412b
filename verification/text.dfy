/** Case folding of identifiers. Stock symbols are upper-cased on entry and on
    lookup, and hotel cancellations compare customer names ignoring case. Only
    ASCII letters are folded. */
module Text {

  /** Upper-case one character: 'a'..'z' map to 'A'..'Z', everything else is kept. */
  function UpperChar(c: char): char
  {
    if 'a' <= c <= 'z' then (c as int - 32) as char else c
  }

  /** Lower-case one character: 'A'..'Z' map to 'a'..'z', everything else is kept. */
  function LowerChar(c: char): char
  {
    if 'A' <= c <= 'Z' then (c as int + 32) as char else c
  }

  /** A string with no lower-case ASCII letter. */
  predicate IsUpper(s: string)
  {
    forall i :: 0 <= i < |s| ==> !('a' <= s[i] <= 'z')
  }

  /** Upper-case a whole string, character by character. */
  function ToUpper(s: string): (r: string)
    ensures |r| == |s|
    ensures IsUpper(r)
    ensures forall i :: 0 <= i < |s| && !('a' <= s[i] <= 'z') ==> r[i] == s[i]
    ensures forall i :: 0 <= i < |s| && 'a' <= s[i] <= 'z' ==> r[i] as int == s[i] as int - 32
  {
    seq(|s|, i requires 0 <= i < |s| => UpperChar(s[i]))
  }

  /** Upper-casing a string that is already upper case leaves it alone. */
  lemma ToUpperOfUpper(s: string)
    requires IsUpper(s)
    ensures ToUpper(s) == s
  {
  }

  /** Upper-casing twice is the same as upper-casing once. */
  lemma ToUpperIdempotent(s: string)
    ensures ToUpper(ToUpper(s)) == ToUpper(s)
  {
    ToUpperOfUpper(ToUpper(s));
  }

  /** Two characters are equal ignoring case when they are equal, or their
      upper-case forms are, or their lower-case forms are. */
  predicate CharEqualsIgnoreCase(c1: char, c2: char)
  {
    c1 == c2 || UpperChar(c1) == UpperChar(c2) || LowerChar(c1) == LowerChar(c2)
  }

  /** Two strings are equal ignoring case when they have the same length and
      agree ignoring case at every position. */
  predicate EqualsIgnoreCase(a: string, b: string)
  {
    |a| == |b| && forall i :: 0 <= i < |a| ==> CharEqualsIgnoreCase(a[i], b[i])
  }

  /** For ASCII folding, the three-way character test collapses to comparing
      upper-case forms. */
  lemma CharEqualsIgnoreCaseIsUpperEqual(c1: char, c2: char)
    ensures CharEqualsIgnoreCase(c1, c2) <==> UpperChar(c1) == UpperChar(c2)
  {
  }

  /** Case-insensitive equality is exactly equality of the upper-cased strings. */
  lemma EqualsIgnoreCaseIffSameUpper(a: string, b: string)
    ensures EqualsIgnoreCase(a, b) <==> ToUpper(a) == ToUpper(b)
  {
    if EqualsIgnoreCase(a, b) {
      forall i | 0 <= i < |a|
        ensures ToUpper(a)[i] == ToUpper(b)[i]
      {
        CharEqualsIgnoreCaseIsUpperEqual(a[i], b[i]);
      }
    }
    if ToUpper(a) == ToUpper(b) {
      forall i | 0 <= i < |a|
        ensures CharEqualsIgnoreCase(a[i], b[i])
      {
        assert ToUpper(a)[i] == ToUpper(b)[i];
        CharEqualsIgnoreCaseIsUpperEqual(a[i], b[i]);
      }
    }
  }
}
