// Shared value types: a failure-compatible result and the maximum of a
// non-empty integer sequence.

module Outcomes {

  /** The outcome of an operation that may raise: `Ok` carries the value,
      `Err` the exception the Python code would raise. */
  datatype Result<+T, +E> = Ok(value: T) | Err(error: E)

  datatype Option<+T> = None | Some(value: T)

  /** The largest element of a non-empty sequence (numpy's `max`). */
  function SeqMax(s: seq<int>): (m: int)
    requires |s| > 0
    ensures forall k :: 0 <= k < |s| ==> s[k] <= m
    ensures exists k :: 0 <= k < |s| && s[k] == m
    decreases |s|
  {
    if |s| == 1 then s[0]
    else
      var rest := SeqMax(s[1..]);
      assert forall k :: 1 <= k < |s| ==> s[k] == s[1..][k - 1];
      if s[0] >= rest then s[0] else rest
  }

  /** Any upper bound that is attained is the maximum. */
  lemma SeqMaxIs(s: seq<int>, m: int, at: nat)
    requires at < |s| && s[at] == m
    requires forall k :: 0 <= k < |s| ==> s[k] <= m
    ensures SeqMax(s) == m
  {
  }
}
