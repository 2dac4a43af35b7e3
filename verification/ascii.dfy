/** ASCII text helpers: the lower-casing the indexer applies to addresses
    (JavaScript `toLowerCase`, restricted to the letters `A`-`Z`) and a
    search for the first occurrence of a separator. */
module Ascii {
  import opened Results

  predicate IsUpper(c: char) {
    'A' <= c <= 'Z'
  }

  function LowerChar(c: char): char {
    if IsUpper(c) then (c as int - 'A' as int + 'a' as int) as char else c
  }

  /** A string with no upper-case ASCII letter in it. */
  predicate IsLowerText(s: string) {
    forall i :: 0 <= i < |s| ==> !IsUpper(s[i])
  }

  /** `s.toLowerCase()` on ASCII letters: every character is mapped on its own,
      so the length is kept and no upper-case letter survives. */
  function Lower(s: string): (r: string)
    ensures |r| == |s|
    ensures forall i :: 0 <= i < |s| ==> r[i] == LowerChar(s[i])
    ensures IsLowerText(r)
  {
    if s == [] then [] else [LowerChar(s[0])] + Lower(s[1..])
  }

  /** Two characters name the same letter, ignoring ASCII case: either they
      are equal or one is the upper-case form of the other. Stated with code
      points only, independently of `LowerChar`. */
  predicate SameUpToCase(c: char, d: char) {
    || c == d
    || (IsUpper(c) && d as int == c as int + 32)
    || (IsUpper(d) && c as int == d as int + 32)
  }

  /** Two strings that differ at most in the case of ASCII letters. */
  predicate TextSameUpToCase(a: string, b: string) {
    |a| == |b| && forall i :: 0 <= i < |a| ==> SameUpToCase(a[i], b[i])
  }

  /** Lower-casing identifies exactly the strings that differ only in case:
      both directions of the equivalence. */
  lemma LowerEqualIffSameUpToCase(a: string, b: string)
    ensures Lower(a) == Lower(b) <==> TextSameUpToCase(a, b)
  {
    if Lower(a) == Lower(b) {
      forall i | 0 <= i < |a|
        ensures SameUpToCase(a[i], b[i])
      {
        assert LowerChar(a[i]) == LowerChar(b[i]);
      }
    }
    if TextSameUpToCase(a, b) {
      forall i | 0 <= i < |a|
        ensures Lower(a)[i] == Lower(b)[i]
      {
        assert SameUpToCase(a[i], b[i]);
      }
    }
  }

  /** Lower-casing leaves text that is already lower-case alone; in
      particular it is idempotent. */
  lemma LowerOfLowerText(s: string)
    requires IsLowerText(s)
    ensures Lower(s) == s
  {
  }

  lemma LowerIdempotent(s: string)
    ensures Lower(Lower(s)) == Lower(s)
  {
    LowerOfLowerText(Lower(s));
  }

  /** The position of the first `c` in `s`, if any. */
  function FirstIndexOf(s: string, c: char): (r: Option<nat>)
    ensures r.None? <==> c !in s
    ensures r.Some? ==> r.value < |s| && s[r.value] == c && c !in s[..r.value]
  {
    if s == [] then None
    else if s[0] == c then Some(0)
    else match FirstIndexOf(s[1..], c)
      case None => None
      case Some(k) =>
        assert s[1..][..k] == s[1..k + 1];
        assert s[..k + 1] == [s[0]] + s[1..k + 1];
        Some(k + 1)
  }

  /** When `c` does not occur in `a`, the first `c` of `a + [c] + b` is the
      one right after `a`. */
  lemma FirstIndexAfterPrefix(a: string, c: char, b: string)
    requires c !in a
    ensures FirstIndexOf(a + [c] + b, c) == Some(|a|)
  {
    var s := a + [c] + b;
    assert s[|a|] == c;
    assert s[..|a|] == a;
  }
}
