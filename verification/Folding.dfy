/** Comparing checksums without regard to letter case. */
module Folding {
  import opened Protocol

  function UpperChar(c: char): char {
    if 'a' <= c <= 'z' then c - 'a' + 'A' else c
  }

  function LowerChar(c: char): char {
    if 'A' <= c <= 'Z' then c - 'A' + 'a' else c
  }

  function ToUpper(s: string): string {
    seq(|s|, i requires 0 <= i < |s| => UpperChar(s[i]))
  }

  function ToLower(s: string): string {
    seq(|s|, i requires 0 <= i < |s| => LowerChar(s[i]))
  }

  predicate IsLowerHex(s: string) {
    forall i :: 0 <= i < |s| ==> '0' <= s[i] <= '9' || 'a' <= s[i] <= 'f'
  }

  lemma EqualFoldIsEqualLower(a: string, b: string)
    ensures EqualFold(a, b) <==> ToLower(a) == ToLower(b)
  {
    if ToLower(a) == ToLower(b) {
      forall i | 0 <= i < |a|
        ensures |a| == |b| && LowerChar(a[i]) == LowerChar(b[i])
      {
        assert |ToLower(a)| == |ToLower(b)| && ToLower(a)[i] == ToLower(b)[i];
      }
      assert |ToLower(a)| == |ToLower(b)|;
    }
  }

  /** A checksum is accepted in upper case exactly when it is in lower case, or as it is. */
  lemma CaseDoesNotMatter(digest: string, announced: string)
    ensures EqualFold(digest, ToUpper(announced)) <==> EqualFold(digest, announced)
    ensures EqualFold(digest, ToLower(announced)) <==> EqualFold(digest, announced)
  {
    EqualFoldIsEqualLower(digest, announced);
    EqualFoldIsEqualLower(digest, ToUpper(announced));
    EqualFoldIsEqualLower(digest, ToLower(announced));
    assert ToLower(ToUpper(announced)) == ToLower(announced);
    assert ToLower(ToLower(announced)) == ToLower(announced);
  }

  /** Of a hexadecimal digest, no letter and no digit is ignored. */
  lemma DigestsAreExact(digest: string, announced: string)
    requires IsLowerHex(digest) && IsLowerHex(announced)
    ensures EqualFold(digest, announced) <==> digest == announced
    ensures EqualFold(digest, ToUpper(announced)) <==> digest == announced
  {
    CaseDoesNotMatter(digest, announced);
    EqualFoldIsEqualLower(digest, announced);
    assert ToLower(digest) == digest && ToLower(announced) == announced;
  }
}
