/**
 * Searches over the items a visitor is handed in order. A visitor that
 * stops at its first hit finds the first match; one that keeps overwriting a
 * result finds the last.
 */
module Seqs {
  import opened Wrappers

  /** The position of the first item satisfying `p`. */
  function FirstIndex<T>(xs: seq<T>, p: T -> bool): (r: Option<nat>)
    ensures r.Some? ==> r.value < |xs| && p(xs[r.value]) && forall j :: 0 <= j < r.value ==> !p(xs[j])
    ensures r.None? <==> forall j :: 0 <= j < |xs| ==> !p(xs[j])
    ensures forall i :: 0 <= i < |xs| && p(xs[i]) && (forall j :: 0 <= j < i ==> !p(xs[j])) ==> r == Some(i)
    decreases |xs|
  {
    if |xs| == 0 then None
    else if p(xs[0]) then Some(0)
    else
      var r := FirstIndex(xs[1..], p);
      if r.Some? then Some(r.value + 1) else None
  }

  /** The position of the last item satisfying `p`: what a visitor that keeps overwriting its answer ends with. */
  function LastIndex<T>(xs: seq<T>, p: T -> bool): (r: Option<nat>)
    ensures r.Some? ==> r.value < |xs|
    decreases |xs|
  {
    if |xs| == 0 then None
    else if p(xs[|xs| - 1]) then Some(|xs| - 1)
    else LastIndex(xs[..|xs| - 1], p)
  }

  lemma {:induction false} LastIndexIsLast<T>(xs: seq<T>, p: T -> bool)
    ensures LastIndex(xs, p).None? <==> forall j :: 0 <= j < |xs| ==> !p(xs[j])
    ensures LastIndex(xs, p).Some? ==>
              var i := LastIndex(xs, p).value;
              i < |xs| && p(xs[i]) && forall j :: i < j < |xs| ==> !p(xs[j])
    decreases |xs|
  {
    if |xs| > 0 && !p(xs[|xs| - 1]) {
      var prefix := xs[..|xs| - 1];
      LastIndexIsLast(prefix, p);
      assert forall j :: 0 <= j < |prefix| ==> prefix[j] == xs[j];
    }
  }

  /** Visiting one more item: it wins if it satisfies `p`, otherwise the earlier answer stands. */
  lemma LastIndexStep<T>(xs: seq<T>, k: nat, p: T -> bool)
    requires k < |xs|
    ensures LastIndex(xs[..k + 1], p) == if p(xs[k]) then Some(k) else LastIndex(xs[..k], p)
  {
    assert xs[..k + 1][..k] == xs[..k];
  }

  /** The items satisfying `p`, in order. */
  function Filter<T>(xs: seq<T>, p: T -> bool): (r: seq<T>)
    ensures |r| <= |xs|
    ensures forall i :: 0 <= i < |r| ==> r[i] in xs && p(r[i])
    ensures forall j :: 0 <= j < |xs| && p(xs[j]) ==> xs[j] in r
    decreases |xs|
  {
    if |xs| == 0 then []
    else if p(xs[0]) then [xs[0]] + Filter(xs[1..], p)
    else Filter(xs[1..], p)
  }
}
