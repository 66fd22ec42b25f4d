/** Letters of names and addresses, as the source compares them. */
module Ascii {

  function Lower(s: string): string {
    seq(|s|, i requires 0 <= i < |s| => if 'A' <= s[i] <= 'Z' then s[i] + ('a' - 'A') else s[i])
  }

  /** A capital letter becomes the small one, 32 places on; nothing else changes. */
  lemma LowerMeaning(s: string)
    ensures |Lower(s)| == |s|
    ensures forall i :: 0 <= i < |s| ==> Lower(s)[i] as int == s[i] as int + if 65 <= s[i] as int <= 90 then 32 else 0
  {
  }

  /** The same letters, each capital or not. */
  predicate SameButCase(a: string, b: string) {
    |a| == |b| && forall i :: 0 <= i < |a| ==>
      || a[i] == b[i]
      || (65 <= a[i] as int <= 90 && b[i] as int == a[i] as int + 32)
      || (65 <= b[i] as int <= 90 && a[i] as int == b[i] as int + 32)
  }

  lemma LowerForgetsCase(a: string, b: string)
    requires SameButCase(a, b)
    ensures Lower(a) == Lower(b)
  {
  }

  lemma LowerSameIff(a: string, b: string)
    ensures Lower(a) == Lower(b) <==> SameButCase(a, b)
  {
    if SameButCase(a, b) { LowerForgetsCase(a, b); }
    if Lower(a) == Lower(b) {
      LowerMeaning(a);
      LowerMeaning(b);
      forall i | 0 <= i < |a|
        ensures a[i] == b[i] || (65 <= a[i] as int <= 90 && b[i] as int == a[i] as int + 32)
                || (65 <= b[i] as int <= 90 && a[i] as int == b[i] as int + 32)
      {
        assert Lower(a)[i] == Lower(b)[i];
      }
    }
  }
}
