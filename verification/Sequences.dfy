/** Subsequences and concatenation of lists of lists. */
module Sequences {

  /** `a` can be obtained from `b` by leaving elements out. */
  ghost predicate Subseq<T>(a: seq<T>, b: seq<T>)
    decreases |b|
  {
    a == [] ||
    (b != [] && (Subseq(a, b[..|b| - 1]) || (a[|a| - 1] == b[|b| - 1] && Subseq(a[..|a| - 1], b[..|b| - 1]))))
  }

  lemma SubseqSnoc<T>(a: seq<T>, b: seq<T>, x: T)
    requires Subseq(a, b)
    ensures Subseq(a, b + [x]) && Subseq(a + [x], b + [x])
  {
    assert (b + [x])[..|b|] == b && (a + [x])[..|a|] == a;
  }

  lemma {:induction false} SubseqNotLonger<T>(a: seq<T>, b: seq<T>)
    requires Subseq(a, b)
    ensures |a| <= |b| && (|a| == |b| ==> a == b)
    decreases |b|
  {
    if a != [] {
      var b', a' := b[..|b| - 1], a[..|a| - 1];
      if Subseq(a, b') {
        SubseqNotLonger(a, b');
      } else {
        SubseqNotLonger(a', b');
        assert a == a' + [a[|a| - 1]] && b == b' + [b[|b| - 1]];
      }
    }
  }

  /** Leaving out one more element. */
  lemma {:induction false} SubseqDelete<T>(a: seq<T>, k: nat, b: seq<T>)
    requires k < |a| && Subseq(a, b)
    ensures Subseq(a[..k] + a[k + 1..], b)
    decreases |b|
  {
    var b', a', rest := b[..|b| - 1], a[..|a| - 1], a[..k] + a[k + 1..];
    if Subseq(a, b') {
      SubseqDelete(a, k, b');
    } else if k == |a| - 1 {
      assert rest == a';
    } else {
      SubseqDelete(a', k, b');
      assert rest[..|rest| - 1] == a'[..k] + a'[k + 1..];
    }
  }
}
