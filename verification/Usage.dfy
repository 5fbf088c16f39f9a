/** Accumulated provider usage (inference/prompted.go). Token counts are unbounded integers. */
module Usage {
  import opened Wrappers

  datatype Usage = Usage(requests: nat, inputTokens: Option<int>, outputTokens: Option<int>)

  const NO_USAGE := Usage(0, None, None)

  function AddOptionalCount(total: Option<int>, value: Option<int>, first: bool): Option<int> {
    if value.None? || (!first && total.None?) then None
    else if first then value
    else Some(total.value + value.value)
  }

  function AddRequestUsage(total: Usage, request: Usage): Usage {
    var requests := total.requests + 1;
    Usage(requests,
          AddOptionalCount(total.inputTokens, request.inputTokens, requests == 1),
          AddOptionalCount(total.outputTokens, request.outputTokens, requests == 1))
  }

  /** The total after a sequence of responses. */
  function Fold(responses: seq<Usage>): Usage {
    if responses == [] then NO_USAGE
    else AddRequestUsage(Fold(responses[..|responses| - 1]), responses[|responses| - 1])
  }

  lemma FoldSnoc(responses: seq<Usage>, u: Usage)
    ensures Fold(responses + [u]) == AddRequestUsage(Fold(responses), u)
  {
    assert (responses + [u])[..|responses|] == responses;
  }

  /** The exact sum of the reported counts, if every response reported one. */
  function Total(counts: seq<Option<int>>): Option<int> {
    if exists i | 0 <= i < |counts| :: counts[i].None? then None else Some(Sum(counts))
  }

  function Sum(counts: seq<Option<int>>): int
    requires forall i | 0 <= i < |counts| :: counts[i].Some?
  { if counts == [] then 0 else Sum(counts[..|counts| - 1]) + counts[|counts| - 1].value }

  function Inputs(responses: seq<Usage>): seq<Option<int>> {
    seq(|responses|, i requires 0 <= i < |responses| => responses[i].inputTokens)
  }

  function Outputs(responses: seq<Usage>): seq<Option<int>> {
    seq(|responses|, i requires 0 <= i < |responses| => responses[i].outputTokens)
  }

  lemma TotalSnoc(counts: seq<Option<int>>, c: Option<int>)
    ensures Total(counts + [c]) == AddOptionalCount(Total(counts), c, counts == [])
  {
    var all := counts + [c];
    assert all[|counts|] == c && all[..|counts|] == counts;
    assert forall i | 0 <= i < |counts| :: all[i] == counts[i];
  }

  /** Folding k responses counts k requests, and for k at least one each token total is present exactly when every
      response reported it, and is then the exact sum. */
  lemma {:induction false} FoldIsTotal(responses: seq<Usage>)
    ensures Fold(responses).requests == |responses|
    ensures responses != [] ==>
              && Fold(responses).inputTokens == Total(Inputs(responses))
              && Fold(responses).outputTokens == Total(Outputs(responses))
  {
    if responses != [] {
      var n := |responses| - 1;
      var init, last := responses[..n], responses[n];
      FoldIsTotal(init);
      assert Inputs(responses) == Inputs(init) + [last.inputTokens];
      assert Outputs(responses) == Outputs(init) + [last.outputTokens];
      TotalSnoc(Inputs(init), last.inputTokens);
      TotalSnoc(Outputs(init), last.outputTokens);
    }
  }
}
