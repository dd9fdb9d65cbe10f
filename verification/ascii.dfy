/** Case-insensitive string comparison, restricted to ASCII letters. */
module Ascii {

  /** The lower-case form of an ASCII upper-case letter; every other character is kept. */
  function LowerChar(c: char): char
  {
    if 'A' <= c <= 'Z' then (c as int - 'A' as int + 'a' as int) as char else c
  }

  /** The upper-case form of an ASCII lower-case letter; every other character is kept. */
  function UpperChar(c: char): char
  {
    if 'a' <= c <= 'z' then (c as int - 'a' as int + 'A' as int) as char else c
  }

  /** The string with every ASCII upper-case letter lowered: no ASCII upper-case letter is left. */
  function Lower(s: string): (r: string)
    ensures forall i :: 0 <= i < |r| ==> !('A' <= r[i] <= 'Z')
  {
    seq(|s|, i requires 0 <= i < |s| => LowerChar(s[i]))
  }

  /** Lowering twice is lowering once. */
  lemma LowerIdempotent(s: string)
    ensures Lower(Lower(s)) == Lower(s)
  {
  }

  /**
   The character test of `String.regionMatches(true, ...)`, which
   `equalsIgnoreCase` uses: equal, or equal once both are upper-cased, or equal
   once those upper-case forms are lowered again.
   */
  predicate CharsMatchIgnoringCase(c: char, d: char)
  {
    c == d
    || UpperChar(c) == UpperChar(d)
    || LowerChar(UpperChar(c)) == LowerChar(UpperChar(d))
  }

  /** For ASCII folding, the three-way character test is the same as comparing lower-case forms. */
  lemma CharsMatchIffLowerEqual(c: char, d: char)
    ensures CharsMatchIgnoringCase(c, d) <==> LowerChar(c) == LowerChar(d)
  {
  }

  /** The character-wise test over two strings of the same length, and the lower-case comparison, agree. */
  lemma RegionMatchIffLowerEqual(a: string, b: string)
    ensures (|a| == |b| && forall i :: 0 <= i < |a| ==> CharsMatchIgnoringCase(a[i], b[i]))
        <==> Lower(a) == Lower(b)
  {
    forall i | 0 <= i < |a| && i < |b|
      ensures CharsMatchIgnoringCase(a[i], b[i]) <==> Lower(a)[i] == Lower(b)[i]
    {
      CharsMatchIffLowerEqual(a[i], b[i]);
    }
  }

  /**
   `String.equalsIgnoreCase`: the same length and every pair of characters
   matching ignoring case; the same as having equal lower-case forms.
   */
  function EqualsIgnoreCase(a: string, b: string): (r: bool)
    ensures r <==> Lower(a) == Lower(b)
  {
    RegionMatchIffLowerEqual(a, b);
    |a| == |b| && forall i :: 0 <= i < |a| ==> CharsMatchIgnoringCase(a[i], b[i])
  }

  /** Against an all-lower-case constant, a string matches iff lowering it yields the constant. */
  lemma EqualsIgnoreCaseLowerConstant(k: string, s: string)
    requires Lower(k) == k
    ensures EqualsIgnoreCase(k, s) <==> Lower(s) == k
  {
  }
}
