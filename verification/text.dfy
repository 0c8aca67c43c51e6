/** String predicates the page analysis is built from: ASCII lower-casing,
    substring containment and "contains any of these keywords". */
module Text {

  /** True when `c` is an upper-case ASCII letter. */
  predicate IsUpper(c: char) {
    'A' <= c <= 'Z'
  }

  /** The lower-case form of `c`: the letter 32 code points further on when
      `c` is upper-case ASCII, otherwise `c` itself. */
  function LowerChar(c: char): char {
    if IsUpper(c) then (c as int + 32) as char else c
  }

  /** ASCII lower-casing of a whole string. */
  function Lower(s: string): (r: string)
    ensures |r| == |s|
    ensures forall i :: 0 <= i < |s| ==> r[i] == LowerChar(s[i])
    ensures forall i :: 0 <= i < |r| ==> !IsUpper(r[i])
  {
    if s == [] then [] else [LowerChar(s[0])] + Lower(s[1..])
  }

  /** Lower-casing twice is lower-casing once. */
  lemma LowerIdempotent(s: string)
    ensures Lower(Lower(s)) == Lower(s)
  {
  }

  /** `needle` occurs in `s` starting at index `i`. */
  predicate OccursAt(s: string, needle: string, i: int) {
    0 <= i && i + |needle| <= |s| && s[i..i + |needle|] == needle
  }

  /** Python's `needle in s`, by a left-to-right scan. */
  function Contains(s: string, needle: string): (r: bool)
    ensures r <==> exists i :: OccursAt(s, needle, i)
  {
    if |needle| <= |s| && s[..|needle|] == needle then
      assert OccursAt(s, needle, 0);
      true
    else if s == [] then
      false
    else
      var r := Contains(s[1..], needle);
      if r then
        var i :| OccursAt(s[1..], needle, i);
        assert OccursAt(s, needle, i + 1) by {
          assert s[i + 1..i + 1 + |needle|] == s[1..][i..i + |needle|];
        }
        r
      else
        assert forall i :: OccursAt(s, needle, i) ==> OccursAt(s[1..], needle, i - 1) by {
          forall i | OccursAt(s, needle, i)
            ensures OccursAt(s[1..], needle, i - 1)
          {
            assert i != 0;
            assert s[1..][i - 1..i - 1 + |needle|] == s[i..i + |needle|];
          }
        }
        r
  }

  /** Python's `any(k in s for k in keywords)`. */
  function ContainsAny(s: string, keywords: seq<string>): (r: bool)
    ensures r <==> exists k :: 0 <= k < |keywords| && Contains(s, keywords[k])
  {
    if keywords == [] then false
    else if Contains(s, keywords[0]) then true
    else
      var r := ContainsAny(s, keywords[1..]);
      assert forall k :: 1 <= k < |keywords| ==> keywords[k] == keywords[1..][k - 1];
      r
  }

  /** Upper-case letters in the haystack do not stop a lower-case needle from
      being found once the haystack is lower-cased: each occurrence in `s`
      of a lower-case needle is still an occurrence in `Lower(s)`. */
  lemma LowerKeepsLowerCaseOccurrences(s: string, needle: string, i: int)
    requires forall j :: 0 <= j < |needle| ==> !IsUpper(needle[j])
    requires OccursAt(s, needle, i)
    ensures OccursAt(Lower(s), needle, i)
  {
  }

  /** A needle placed between any two strings is found. */
  lemma OccursBetween(a: string, needle: string, b: string)
    ensures Contains(a + needle + b, needle)
  {
    assert (a + needle + b)[|a|..|a| + |needle|] == needle;
    assert OccursAt(a + needle + b, needle, |a|);
  }

  /** A needle containing a character that `s` lacks is not found in `s`. */
  lemma MissingCharRulesOut(s: string, needle: string, k: int)
    requires 0 <= k < |needle|
    ensures needle[k] !in s ==> !Contains(s, needle)
  {
  }

  /** Lower-casing works character by character, so it distributes over
      concatenation. */
  lemma LowerConcat(a: string, b: string)
    ensures Lower(a + b) == Lower(a) + Lower(b)
  {
  }
}
