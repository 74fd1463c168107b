/** paxos_asyncio/util.py: the `all_equal` helper (logging helpers and the debugger hook are not modelled). */
module Util {

  /** What `all_equal` decides: every element equals the first one (vacuously true for an empty sequence). */
  predicate AllSame<T(==)>(xs: seq<T>) {
    forall i :: 0 <= i < |xs| ==> xs[i] == xs[0]
  }

  /** `all_equal`: take the first element, then walk the rest and return false at the first one that differs. */
  method AllEqual<T(==)>(xs: seq<T>) returns (r: bool)
    ensures r <==> AllSame(xs)
    ensures r <==> forall i, j :: 0 <= i < |xs| && 0 <= j < |xs| ==> xs[i] == xs[j]
  {
    if |xs| == 0 {
      // `next(x)` raises StopIteration on the first call
      return true;
    }
    var first := xs[0];
    var i := 1;
    while i < |xs|
      invariant 1 <= i <= |xs|
      invariant forall j :: 0 <= j < i ==> xs[j] == first
    {
      var val := xs[i];
      if first != val {
        return false;
      }
      i := i + 1;
    }
    return true;
  }

  /** A sequence of at most one element is all-equal. */
  lemma AllSameShort<T>(xs: seq<T>)
    requires |xs| <= 1
    ensures AllSame(xs)
  {
  }

  /** The first mismatch decides: `all_equal` is false exactly when some element differs from the first. */
  lemma {:induction false} AllSameFirstMismatch<T>(xs: seq<T>, k: nat)
    requires k < |xs| && xs[k] != xs[0]
    requires forall j :: 0 <= j < k ==> xs[j] == xs[0]
    ensures !AllSame(xs)
    ensures !AllSame(xs[..k + 1]) && AllSame(xs[..k])
  {
    assert xs[..k + 1][k] == xs[k];
    forall j | 0 <= j < k ensures xs[..k][j] == xs[..k][0] {
      assert xs[..k][j] == xs[j];
    }
  }
}
