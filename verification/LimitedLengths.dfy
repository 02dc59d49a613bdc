/** Length limiting in tools/gen_huffman_table.py: the weights are halved until no code is longer than 16 bits.
    That this ever stops follows from the optimality of each attempt: once all weights are 1, a code that is
    deeper than 8 bits anywhere would cost more than giving every byte 8 bits. */
module LimitedLengths {
  import opened Numbers
  import opened Kraft
  import opened HuffmanMerge
  import opened HuffmanRuns

  const SYMBOLS: nat := 256
  const MAX_LENGTH: nat := 16

  function Flatten(weights: seq<nat>): (r: seq<nat>)
    ensures |r| == |weights|
    ensures forall i :: 0 <= i < |r| ==> r[i] == Max(1, weights[i] / 2)
  {
    seq(|weights|, i requires 0 <= i < |weights| => Max(1, weights[i] / 2))
  }

  function Flattened(weights: seq<nat>, times: nat): (r: seq<nat>)
    ensures |r| == |weights|
  {
    if times == 0 then weights else Flatten(Flattened(weights, times - 1))
  }

  /** Unseen symbols count as one. */
  function Seen(counts: seq<nat>): (r: seq<nat>)
    ensures |r| == |counts|
    ensures forall i :: 0 <= i < |r| ==> r[i] == counts[i] + 1
  {
    seq(|counts|, i requires 0 <= i < |counts| => counts[i] + 1)
  }

  ghost predicate Positive(weights: seq<nat>) {
    forall i :: 0 <= i < |weights| ==> weights[i] >= 1
  }

  lemma UnitCost(lengths: seq<nat>, weights: seq<nat>)
    requires |weights| == |lengths|
    requires forall i :: 0 <= i < |weights| ==> weights[i] == 1
    ensures Cost(weights, lengths) == Sum(lengths)
  {
    assert Products(weights, lengths) == lengths;
  }

  lemma FlatCode() returns (flat: seq<nat>)
    ensures |flat| == SYMBOLS && SatisfiesKraft(flat) && Sum(flat) == 8 * SYMBOLS
  {
    flat := seq(SYMBOLS, _ => 8);
    SumOfEqual(flat, 8);
    assert Within(flat, 8) && Pow2(8 - 8) == 1;
    SumOfEqual(Shares(flat, 8), 1);
    Pow2Of8();
    KraftAnyScale(flat, 8);
  }

  /** Giving every byte 8 bits is a code, so an optimal one for equal weights is no more expensive. */
  lemma EqualWeightsCost(weights: seq<nat>, lengths: seq<nat>)
    requires |weights| == SYMBOLS && Optimal(weights, lengths)
    requires forall i :: 0 <= i < |weights| ==> weights[i] == 1
    ensures Sum(lengths) <= 8 * SYMBOLS
  {
    var flat := FlatCode();
    UnitCost(lengths, weights);
    UnitCost(flat, weights);
  }

  function Below9(lengths: seq<nat>): (r: seq<nat>)
    ensures |r| == |lengths|
    ensures forall i :: 0 <= i < |r| ==> r[i] == if lengths[i] <= 9 then 9 - lengths[i] else 0
  {
    seq(|lengths|, i requires 0 <= i < |lengths| => if lengths[i] <= 9 then 9 - lengths[i] else 0)
  }

  lemma {:induction false} Below9Sum(lengths: seq<nat>)
    ensures Sum(Below9(lengths)) + Sum(lengths) >= 9 * |lengths|
  {
    if lengths != [] {
      assert Below9(lengths)[1..] == Below9(lengths[1..]);
      Below9Sum(lengths[1..]);
    }
  }

  /** 2^(8-l) is at least 9-l, and more for l beyond 8. */
  lemma TangentShare(top: nat, l: nat, b: nat)
    requires top >= 8 && l <= top && b == if l <= 9 then 9 - l else 0
    ensures Shift(b, top - 8) <= Pow2(top - l)
    ensures l > 8 ==> Shift(b, top - 8) < Pow2(top - l)
  {
    if l <= 8 {
      ShiftPow2(8 - l, top - 8, top - l);
      PowerAboveTangent(8 - l);
      ShiftCompare(b, Pow2(8 - l), top - 8);
    } else {
      ShiftSum(0, 0, top - 8);
    }
  }

  lemma {:induction false} PowerAboveTangent(x: nat)
    ensures x + 1 <= Pow2(x)
  {
    if x > 0 {
      PowerAboveTangent(x - 1);
    }
  }

  /** The shares that the tangent allows; their sum is at least 2^top. */
  lemma TangentSum(lengths: seq<nat>, top: nat) returns (scaled: seq<nat>)
    requires |lengths| == SYMBOLS && Sum(lengths) <= 8 * SYMBOLS && top >= 8
    ensures |scaled| == |lengths| && Sum(scaled) >= Pow2(top)
    ensures forall i :: 0 <= i < |scaled| ==> scaled[i] == Shift(Below9(lengths)[i], top - 8)
  {
    var below := Below9(lengths);
    scaled := seq(|below|, i requires 0 <= i < |below| => Shift(below[i], top - 8));
    SumShift(below, scaled, top - 8);
    Below9Sum(lengths);
    Pow2Of8();
    ShiftPow2(8, top - 8, top);
    ShiftCompare(256, Sum(below), top - 8);
  }

  lemma SharesAboveTangent(lengths: seq<nat>, top: nat, scaled: seq<nat>)
    requires top >= 8 && Within(lengths, top) && |scaled| == |lengths|
    requires forall i :: 0 <= i < |scaled| ==> scaled[i] == Shift(Below9(lengths)[i], top - 8)
    ensures Sum(scaled) <= KraftSum(lengths, top)
    ensures !Within(lengths, 8) ==> Sum(scaled) < KraftSum(lengths, top)
  {
    forall i | 0 <= i < |lengths|
      ensures scaled[i] <= Shares(lengths, top)[i]
      ensures lengths[i] > 8 ==> scaled[i] < Shares(lengths, top)[i]
    {
      TangentShare(top, lengths[i], Below9(lengths)[i]);
    }
    SumMonotone(scaled, Shares(lengths, top));
    if i :| 0 <= i < |lengths| && lengths[i] > 8 {
      assert scaled[i] != Shares(lengths, top)[i];
    }
  }

  /** With equal weights no byte gets more than 8 bits. */
  lemma EqualWeightsDepth(weights: seq<nat>, lengths: seq<nat>)
    requires |weights| == SYMBOLS && Optimal(weights, lengths) && FillsKraft(lengths)
    requires forall i :: 0 <= i < |weights| ==> weights[i] == 1
    ensures Longest(lengths) <= 8
  {
    EqualWeightsCost(weights, lengths);
    var top := Max(8, Longest(lengths));
    KraftAnyScale(lengths, top);
    var scaled := TangentSum(lengths, top);
    SharesAboveTangent(lengths, top, scaled);
    LongestIsLeast(lengths, 8);
  }

  lemma SomeShare(lengths: seq<nat>, top: nat)
    requires lengths != [] && Within(lengths, top)
    ensures KraftSum(lengths, top) > 0
  {
    KraftRemove(lengths, top, 0);
  }

  /** A tree that is full has no leaf at its root unless that is all of it. */
  lemma NoEmptyCode(lengths: seq<nat>, s: nat)
    requires |lengths| >= 2 && FillsKraft(lengths) && s < |lengths|
    ensures lengths[s] >= 1
  {
    var top := Longest(lengths);
    KraftRemove(lengths, top, s);
    SomeShare(Remove(lengths, s), top);
  }

  lemma FlattenShrinks(weights: seq<nat>)
    requires Positive(weights)
    ensures Positive(Flatten(weights))
    ensures (exists i :: 0 <= i < |weights| && weights[i] > 1) ==> Sum(Flatten(weights)) < Sum(weights)
  {
    SumMonotone(Flatten(weights), weights);
    if i :| 0 <= i < |weights| && weights[i] > 1 {
      assert Flatten(weights)[i] != weights[i];
    }
  }

  /** While the code is too deep, flattening still has weights to shrink. */
  lemma TooDeepCanFlatten(weights: seq<nat>)
    requires |weights| == SYMBOLS && Positive(weights) && Longest(HuffmanCode(weights)) > MAX_LENGTH
    ensures Sum(Flatten(weights)) < Sum(weights)
  {
    HuffmanCodeOptimal(weights);
    FlattenShrinks(weights);
    if forall i :: 0 <= i < |weights| ==> weights[i] == 1 {
      EqualWeightsDepth(weights, HuffmanCode(weights));
    }
  }

  ghost predicate TooDeepBefore(counts: seq<nat>, times: nat) {
    forall fewer :: 0 <= fewer < times ==> Longest(HuffmanCode(Flattened(Seen(counts), fewer))) > MAX_LENGTH
  }

  /** The lengths are the optimal ones for the counts, flattened no more often than it takes to stay within
      16 bits. */
  ghost predicate LeastFlattened(counts: seq<nat>, lengths: seq<nat>, times: nat) {
    && Optimal(Flattened(Seen(counts), times), lengths)
    && lengths == HuffmanCode(Flattened(Seen(counts), times))
    && TooDeepBefore(counts, times)
  }

  /** A table for all byte values: every one has a code of 1 to 16 bits, and together they use up all bit strings. */
  ghost predicate TableLengths(lengths: seq<nat>) {
    && |lengths| == SYMBOLS
    && FillsKraft(lengths)
    && forall s :: 0 <= s < SYMBOLS ==> 1 <= lengths[s] <= MAX_LENGTH
  }

  lemma ShallowCodeIsTable(weights: seq<nat>, lengths: seq<nat>)
    requires |weights| == SYMBOLS && lengths == HuffmanCode(weights) && Longest(lengths) <= MAX_LENGTH
    ensures TableLengths(lengths) && Optimal(weights, lengths)
  {
    HuffmanCodeOptimal(weights);
    forall s | 0 <= s < SYMBOLS
      ensures 1 <= lengths[s] <= MAX_LENGTH
    {
      NoEmptyCode(lengths, s);
    }
  }

  method LimitedCode(counts: seq<nat>) returns (lengths: seq<nat>, ghost times: nat)
    requires |counts| == SYMBOLS
    ensures TableLengths(lengths)
    ensures LeastFlattened(counts, lengths, times)
  {
    var weights := Seen(counts);
    times := 0;
    lengths := HuffmanLengths(weights);
    while Longest(lengths) > MAX_LENGTH
      invariant |weights| == SYMBOLS && Positive(weights)
      invariant lengths == HuffmanCode(weights) && weights == Flattened(Seen(counts), times)
      invariant TooDeepBefore(counts, times)
      decreases Sum(weights)
    {
      TooDeepCanFlatten(weights);
      FlattenShrinks(weights);
      weights := Flatten(weights);
      times := times + 1;
      lengths := HuffmanLengths(weights);
    }
    ShallowCodeIsTable(weights, lengths);
  }
}
