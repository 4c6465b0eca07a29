/** What is said of sequences in more than one place. */
module Sequences {

  predicate Distinct<T(==)>(s: seq<T>) {
    forall i, j :: 0 <= i < j < |s| ==> s[i] != s[j]
  }

  // The last place of x in s, or -1.
  function LastIndex<T(==)>(s: seq<T>, x: T): int {
    var n := |s| - 1;
    if n < 0 then -1 else if s[n] == x then n else LastIndex(s[..n], x)
  }

  lemma {:induction false} LastIndexAt<T>(s: seq<T>, x: T)
    ensures -1 <= LastIndex(s, x) < |s|
    ensures LastIndex(s, x) >= 0 ==> s[LastIndex(s, x)] == x
    ensures forall k :: LastIndex(s, x) < k < |s| ==> s[k] != x
  {
    if s != [] && s[|s| - 1] != x {
      LastIndexAt(s[..|s| - 1], x);
      assert forall k :: 0 <= k < |s| - 1 ==> s[..|s| - 1][k] == s[k];
    }
  }
}
