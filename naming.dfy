/**
 * Name normalisation applied to sheet names and column headers:
 * `name.lower().replace(" ", "_").replace("-", "_")`.
 * Lower-casing is modelled for ASCII letters only.
 */
module Naming {

  /** ASCII lower-casing of one character; every other character is kept. */
  function LowerChar(c: char): char {
    if 'A' <= c <= 'Z' then (c as int + 32) as char else c
  }

  /** `str.lower()` restricted to ASCII, one character at a time. */
  function Lower(s: string): (r: string)
    ensures |r| == |s|
    ensures forall i :: 0 <= i < |s| ==> r[i] == LowerChar(s[i])
  {
    if s == [] then [] else [LowerChar(s[0])] + Lower(s[1..])
  }

  /** `str.replace(pattern, replacement)` for a one-character pattern. */
  function Replace(s: string, pattern: char, replacement: char): (r: string)
    ensures |r| == |s|
    ensures forall i :: 0 <= i < |s| ==> r[i] == (if s[i] == pattern then replacement else s[i])
  {
    if s == [] then []
    else [if s[0] == pattern then replacement else s[0]] + Replace(s[1..], pattern, replacement)
  }

  /** What normalisation does to a single character (the reference definition). */
  function NormalChar(c: char): char {
    if c == ' ' || c == '-' then '_' else LowerChar(c)
  }

  /** The three-step chain used for table and column names. */
  function Normalize(s: string): (r: string)
    ensures |r| == |s|
    ensures forall i :: 0 <= i < |s| ==> r[i] == NormalChar(s[i])
  {
    Replace(Replace(Lower(s), ' ', '_'), '-', '_')
  }

  /** A name that normalisation leaves alone. */
  predicate IsNormal(s: string) {
    forall i :: 0 <= i < |s| ==> s[i] != ' ' && s[i] != '-' && !('A' <= s[i] <= 'Z')
  }

  /** The result has no space, no hyphen and no upper-case ASCII letter. */
  lemma NormalizeIsNormal(s: string)
    ensures IsNormal(Normalize(s))
    ensures ' ' !in Normalize(s) && '-' !in Normalize(s)
  {
  }

  /** Normal names are fixed points of normalisation. */
  lemma NormalizeFixesNormal(s: string)
    requires IsNormal(s)
    ensures Normalize(s) == s
  {
  }

  /** Normalising twice is normalising once. */
  lemma NormalizeIdempotent(s: string)
    ensures Normalize(Normalize(s)) == Normalize(s)
  {
    NormalizeIsNormal(s);
    NormalizeFixesNormal(Normalize(s));
  }

  /** Normalisation works character by character, so it distributes over concatenation. */
  lemma NormalizeConcat(a: string, b: string)
    ensures Normalize(a + b) == Normalize(a) + Normalize(b)
  {
    var lhs, na, nb := Normalize(a + b), Normalize(a), Normalize(b);
    assert |lhs| == |na + nb|;
    forall i | 0 <= i < |lhs| ensures lhs[i] == (na + nb)[i] {
      if i < |a| {
        assert lhs[i] == NormalChar((a + b)[i]) == NormalChar(a[i]) == na[i];
      } else {
        assert lhs[i] == NormalChar((a + b)[i]) == NormalChar(b[i - |a|]) == nb[i - |a|];
      }
    }
  }

  /** The list comprehension that renames every column of a sheet. */
  function NormalizeAll(names: seq<string>): (r: seq<string>)
    ensures |r| == |names|
    ensures forall i :: 0 <= i < |names| ==> r[i] == Normalize(names[i])
  {
    if names == [] then [] else [Normalize(names[0])] + NormalizeAll(names[1..])
  }
}
