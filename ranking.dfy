/** Selecting the first position that holds a maximal value.
    Python's `max(items, key=...)` (which `Counter.most_common(1)` uses) and
    numpy's `argmax` both scan left to right and keep a candidate unless a
    strictly larger value comes along, so both return the FIRST maximal position. */
module Ranking {

  /** The smallest index holding the largest value of `xs`. */
  function FirstArgMax(xs: seq<real>): (k: nat)
    requires |xs| > 0
    ensures k < |xs|
    ensures forall i :: 0 <= i < |xs| ==> xs[i] <= xs[k]
    ensures forall i :: 0 <= i < k ==> xs[i] < xs[k]
  {
    if |xs| == 1 then 0
    else
      var k := FirstArgMax(xs[..|xs| - 1]);
      if xs[|xs| - 1] > xs[k] then |xs| - 1 else k
  }

  /** The two properties of FirstArgMax determine it: any index that holds a
      maximal value and has only strictly smaller values before it is that index. */
  lemma {:induction false} FirstArgMaxUnique(xs: seq<real>, k: nat)
    requires k < |xs|
    requires forall i :: 0 <= i < |xs| ==> xs[i] <= xs[k]
    requires forall i :: 0 <= i < k ==> xs[i] < xs[k]
    ensures FirstArgMax(xs) == k
  {
  }
}
