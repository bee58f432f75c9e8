/**
  The classifiers walk a table of device families and return the first
  family whose pattern matches, in whatever order the table yields them.
 */
module Search {
  import opened Wrappers

  /** The first element of `order` satisfying `p`. */
  function FirstIn<T>(order: seq<T>, p: T -> bool): (r: Option<T>)
    ensures r.Some? ==> exists k | 0 <= k < |order| :: order[k] == r.value && p(order[k]) && forall j | 0 <= j < k :: !p(order[j])
    ensures r.None? <==> forall k | 0 <= k < |order| :: !p(order[k])
  {
    if order == [] then None
    else if p(order[0]) then Some(order[0])
    else
      var r := FirstIn(order[1..], p);
      assert forall k | 1 <= k < |order| :: order[k] == order[1..][k - 1];
      r
  }
}
