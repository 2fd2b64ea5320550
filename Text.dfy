/** Case folding and substring search, the two string primitives the match
    stage of the monitor is built from: `str.lower()` and `str.find(...) != -1`.
    Lower-casing is modelled for ASCII letters only. */
module Text {

  /** True when `c` is an upper-case ASCII letter. */
  predicate IsUpper(c: char) {
    'A' <= c <= 'Z'
  }

  /** Lower-cases one ASCII letter; every other character is kept. */
  function LowerChar(c: char): (r: char)
    ensures !IsUpper(r)
    ensures !IsUpper(c) ==> r == c
    ensures IsUpper(c) ==> 'a' <= r <= 'z' && r as int - c as int == 32
  {
    if IsUpper(c) then (c as int + 32) as char else c
  }

  /** The lower-cased copy of `s`, character by character. */
  function Lower(s: string): (r: string)
    ensures |r| == |s|
    ensures forall i :: 0 <= i < |s| ==> r[i] == LowerChar(s[i])
  {
    if s == [] then [] else [LowerChar(s[0])] + Lower(s[1..])
  }

  /** Lower-casing twice is lower-casing once. */
  lemma LowerIdempotent(s: string)
    ensures Lower(Lower(s)) == Lower(s)
  {
    assert forall i :: 0 <= i < |s| ==> Lower(Lower(s))[i] == Lower(s)[i];
  }

  /** Lower-casing commutes with taking a slice. */
  lemma LowerSlice(s: string, i: nat, j: nat)
    requires i <= j <= |s|
    ensures Lower(s)[i..j] == Lower(s[i..j])
  {
    assert forall k :: 0 <= k < j - i ==> Lower(s)[i..j][k] == Lower(s[i..j])[k];
  }

  /** `pat` occurs in `text` starting at position `i`. */
  predicate OccursAt(text: string, pat: string, i: int) {
    0 <= i && i + |pat| <= |text| && text[i..i + |pat|] == pat
  }

  /** `pat` is a substring of `text`; the empty pattern is a substring of everything. */
  predicate Contains(text: string, pat: string) {
    exists i :: 0 <= i <= |text| && OccursAt(text, pat, i)
  }

  /** The first position at or after `from` where `pat` occurs in `text`, or -1. */
  function FindFrom(text: string, pat: string, from: nat): (r: int)
    requires from <= |text|
    ensures r == -1 || (from <= r && OccursAt(text, pat, r))
    ensures r != -1 ==> forall j :: from <= j < r ==> !OccursAt(text, pat, j)
    ensures r == -1 ==> forall j :: from <= j <= |text| ==> !OccursAt(text, pat, j)
    decreases |text| - from
  {
    if OccursAt(text, pat, from) then from
    else if from == |text| then -1
    else FindFrom(text, pat, from + 1)
  }

  /** Python's `text.find(pat)`: the lowest index of an occurrence, or -1. */
  function Find(text: string, pat: string): (r: int)
    ensures -1 <= r <= |text|
    ensures r == -1 <==> !Contains(text, pat)
    ensures r != -1 ==> OccursAt(text, pat, r) && forall j :: 0 <= j < r ==> !OccursAt(text, pat, j)
  {
    FindFrom(text, pat, 0)
  }
}
