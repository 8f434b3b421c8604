/** Sequences of indices: deletion and counting. */
module Sequences {

  ghost predicate Distinct(q: seq<nat>) {
    forall i, j :: 0 <= i < j < |q| ==> q[i] != q[j]
  }

  /** `q` without the element at position `k`. */
  function Cut(q: seq<nat>, k: nat): (r: seq<nat>)
    requires k < |q|
    ensures |r| == |q| - 1 && forall i :: 0 <= i < |r| ==> r[i] == q[if i < k then i else i + 1]
  {
    q[..k] + q[k + 1..]
  }

  /** Position of `p` in `q`, or |q|. */
  function IndexOf(q: seq<nat>, p: nat): (i: nat)
    ensures i <= |q| && (i < |q| ==> q[i] == p)
    ensures forall j :: 0 <= j < i ==> q[j] != p
  {
    if q == [] || q[0] == p then 0 else 1 + IndexOf(q[1..], p)
  }

  /** Distinct indices below `n` are at most `n`. */
  lemma {:induction false} Pigeonhole(q: seq<nat>, n: nat)
    requires (forall i :: 0 <= i < |q| ==> q[i] < n) && Distinct(q)
    ensures |q| <= n
    decreases n
  {
    if q != [] {
      assert q[0] < n;
      if n - 1 in q {
        var k :| 0 <= k < |q| && q[k] == n - 1;
        Pigeonhole(Cut(q, k), n - 1);
      } else {
        Pigeonhole(q, n - 1);
      }
    }
  }
}
