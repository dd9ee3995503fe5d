/** ASCII case folding and substring search, the two string operations the
    play control uses to choose a logo from a stream title. Lowercasing is
    modelled on ASCII letters only; every other character is left as is. */
module AsciiText {

  predicate IsUpper(c: char) {
    'A' <= c <= 'Z'
  }

  /** Lowercase one character: ASCII capitals move to their small letters. */
  function LowerChar(c: char): (r: char)
    ensures !IsUpper(r)
    ensures IsUpper(c) ==> 'a' <= r <= 'z' && r as int - c as int == 'a' as int - 'A' as int
    ensures !IsUpper(c) ==> r == c
  {
    if IsUpper(c) then (c as int - 'A' as int + 'a' as int) as char else c
  }

  /** Lowercase a whole string, character by character. */
  function Lower(s: string): (r: string)
    ensures |r| == |s|
    ensures forall i :: 0 <= i < |r| ==> !IsUpper(r[i])
    ensures forall i :: 0 <= i < |s| && !IsUpper(s[i]) ==> r[i] == s[i]
    ensures forall i :: 0 <= i < |s| && IsUpper(s[i]) ==> r[i] != s[i] && LowerChar(s[i]) == r[i]
  {
    if s == [] then [] else [LowerChar(s[0])] + Lower(s[1..])
  }

  /** `p` occurs in `s` starting at index `i`. */
  predicate OccursAt(s: string, p: string, i: int) {
    0 <= i && i + |p| <= |s| && s[i..i + |p|] == p
  }

  /** `p` matches `s` at index `i` once each character of `s` is lowercased. */
  predicate MatchesIgnoringCaseAt(s: string, p: string, i: int) {
    0 <= i && i + |p| <= |s| && forall k :: 0 <= k < |p| ==> LowerChar(s[i + k]) == p[k]
  }

  /** First index at or after `from` where `p` occurs in `s`, or -1 if none. */
  function IndexOf(s: string, p: string, from: nat): (r: int)
    ensures r == -1 || (from <= r && OccursAt(s, p, r))
    ensures r == -1 <==> forall i :: from <= i ==> !OccursAt(s, p, i)
    ensures r >= 0 ==> forall i :: from <= i < r ==> !OccursAt(s, p, i)
    decreases |s| - from
  {
    if from + |p| > |s| then -1
    else if s[from..from + |p|] == p then from
    else IndexOf(s, p, from + 1)
  }

  /** The substring test: some index of `s` starts an occurrence of `p`. */
  function Contains(s: string, p: string): (b: bool)
    ensures b <==> exists i :: OccursAt(s, p, i)
  {
    IndexOf(s, p, 0) >= 0
  }

  /** Lowercasing commutes with taking a slice. */
  lemma LowerSlice(s: string, i: int, j: int)
    requires 0 <= i <= j <= |s|
    ensures Lower(s)[i..j] == Lower(s[i..j])
  {
  }

  /** Searching the lowercased text is the same as matching each window of
      the original text character by character, ignoring case. */
  lemma ContainsLowerIff(s: string, p: string)
    ensures Contains(Lower(s), p) <==> exists i :: MatchesIgnoringCaseAt(s, p, i)
  {
    var t := Lower(s);
    forall i | 0 <= i && i + |p| <= |s|
      ensures OccursAt(t, p, i) <==> MatchesIgnoringCaseAt(s, p, i)
    {
      LowerSlice(s, i, i + |p|);
      if OccursAt(t, p, i) {
        forall k | 0 <= k < |p|
          ensures LowerChar(s[i + k]) == p[k]
        {
          assert t[i..i + |p|][k] == t[i + k];
        }
      }
      if MatchesIgnoringCaseAt(s, p, i) {
        forall k | 0 <= k < |p|
          ensures t[i..i + |p|][k] == p[k]
        {
          assert t[i..i + |p|][k] == t[i + k];
        }
      }
    }
    if Contains(t, p) {
      var i :| OccursAt(t, p, i);
      assert MatchesIgnoringCaseAt(s, p, i);
    }
    if exists i :: MatchesIgnoringCaseAt(s, p, i) {
      var i :| MatchesIgnoringCaseAt(s, p, i);
      assert OccursAt(t, p, i);
    }
  }
}
