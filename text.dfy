/** Character and string helpers used by the upload relay: lower-casing and suffix tests. */
module Text {

  /** Lower-cases one character; only the ASCII letters A-Z are affected. */
  function LowerChar(c: char): char
  {
    if 'A' <= c <= 'Z' then (c as int - 'A' as int + 'a' as int) as char else c
  }

  /** `String.prototype.toLowerCase`, restricted to ASCII letters. */
  function ToLower(s: string): (r: string)
    ensures |r| == |s|
    ensures forall i :: 0 <= i < |s| ==> r[i] == LowerChar(s[i])
  {
    if s == [] then [] else [LowerChar(s[0])] + ToLower(s[1..])
  }

  /** `String.prototype.endsWith`. */
  predicate EndsWith(s: string, suffix: string)
  {
    |suffix| <= |s| && s[|s| - |suffix|..] == suffix
  }

  /** `s` ends with the lower-case `suffix` when letter case in `s` is ignored. */
  ghost predicate EndsWithIgnoringCase(s: string, suffix: string)
  {
    |suffix| <= |s| &&
    forall i :: 0 <= i < |suffix| ==> LowerChar(s[|s| - |suffix| + i]) == suffix[i]
  }

  /** Testing the suffix of the lower-cased string is the same as a case-blind suffix test. */
  lemma EndsWithLower(s: string, suffix: string)
    ensures EndsWith(ToLower(s), suffix) <==> EndsWithIgnoringCase(s, suffix)
  {
    var lower := ToLower(s);
    if |suffix| <= |s| {
      var start := |s| - |suffix|;
      if EndsWith(lower, suffix) {
        forall i | 0 <= i < |suffix|
          ensures LowerChar(s[start + i]) == suffix[i]
        {
          assert lower[start..][i] == lower[start + i];
        }
      }
      if EndsWithIgnoringCase(s, suffix) {
        assert forall i :: 0 <= i < |suffix| ==> lower[start..][i] == suffix[i];
        assert lower[start..] == suffix;
      }
    }
  }

  /** Two strings that agree letter for letter up to case have the same lower-case form. */
  lemma ToLowerIgnoresCase(a: string, b: string)
    requires |a| == |b|
    requires forall i :: 0 <= i < |a| ==> LowerChar(a[i]) == LowerChar(b[i])
    ensures ToLower(a) == ToLower(b)
  {
    assert forall i :: 0 <= i < |a| ==> ToLower(a)[i] == ToLower(b)[i];
  }
}
