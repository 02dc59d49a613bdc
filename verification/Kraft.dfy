/** Code lengths, their cost under given weights, and Kraft's inequality. */
module Kraft {
  import opened Numbers

  ghost predicate Within(lengths: seq<nat>, top: nat) {
    forall i :: 0 <= i < |lengths| ==> lengths[i] <= top
  }

  /** The share of 2^top code words each length takes. */
  function Shares(lengths: seq<nat>, top: nat): (r: seq<nat>)
    requires Within(lengths, top)
    ensures |r| == |lengths|
    ensures forall i :: 0 <= i < |r| ==> r[i] == Pow2(top - lengths[i])
  {
    seq(|lengths|, i requires 0 <= i < |lengths| => Pow2(top - lengths[i]))
  }

  /** 2^top times the Kraft sum of the lengths. */
  function KraftSum(lengths: seq<nat>, top: nat): nat
    requires Within(lengths, top)
  {
    Sum(Shares(lengths, top))
  }

  function Products(weights: seq<nat>, lengths: seq<nat>): (r: seq<nat>)
    requires |weights| == |lengths|
    ensures |r| == |lengths|
    ensures forall i :: 0 <= i < |r| ==> r[i] == weights[i] * lengths[i]
  {
    seq(|lengths|, i requires 0 <= i < |lengths| => weights[i] * lengths[i])
  }

  /** Bits needed to send every symbol as often as its weight says. */
  function Cost(weights: seq<nat>, lengths: seq<nat>): nat
    requires |weights| == |lengths|
  {
    Sum(Products(weights, lengths))
  }

  function Longest(lengths: seq<nat>): (m: nat)
    ensures Within(lengths, m)
    ensures lengths != [] ==> m in lengths
  {
    if lengths == [] then 0 else
    var rest := Longest(lengths[1..]);
    assert forall i :: 0 < i < |lengths| ==> lengths[i] == lengths[1..][i - 1];
    Max(lengths[0], rest)
  }

  /** Kraft's inequality: a prefix code with these lengths can exist. */
  ghost predicate SatisfiesKraft(lengths: seq<nat>) {
    KraftSum(lengths, Longest(lengths)) <= Pow2(Longest(lengths))
  }

  /** The code words fill the whole tree. */
  ghost predicate FillsKraft(lengths: seq<nat>) {
    KraftSum(lengths, Longest(lengths)) == Pow2(Longest(lengths))
  }

  lemma ShareRescale(length: nat, low: nat, top: nat)
    requires length <= low <= top
    ensures Pow2(top - length) == Shift(Pow2(low - length), top - low)
  {
    ShiftPow2(low - length, top - low, top - length);
  }

  lemma KraftRescale(lengths: seq<nat>, low: nat, top: nat)
    requires Within(lengths, low) && Within(lengths, top) && low <= top
    ensures KraftSum(lengths, top) == Shift(KraftSum(lengths, low), top - low)
  {
    forall i | 0 <= i < |lengths|
      ensures Shares(lengths, top)[i] == Shift(Shares(lengths, low)[i], top - low)
    {
      ShareRescale(lengths[i], low, top);
    }
    SumShift(Shares(lengths, low), Shares(lengths, top), top - low);
  }

  lemma LongestIsLeast(lengths: seq<nat>, top: nat)
    requires Within(lengths, top)
    ensures Longest(lengths) <= top
  {
    if lengths != [] {
      var i :| 0 <= i < |lengths| && lengths[i] == Longest(lengths);
    }
  }

  lemma SameAtScales(lengths: seq<nat>, low: nat, top: nat)
    requires Within(lengths, low) && Within(lengths, top) && low <= top
    ensures KraftSum(lengths, low) <= Pow2(low) <==> KraftSum(lengths, top) <= Pow2(top)
    ensures KraftSum(lengths, low) == Pow2(low) <==> KraftSum(lengths, top) == Pow2(top)
  {
    hide KraftSum, Pow2, Shift;
    var k, p, n := KraftSum(lengths, low), Pow2(low), top - low;
    assert KraftSum(lengths, top) == Shift(k, n) by { KraftRescale(lengths, low, top); }
    assert Pow2(top) == Shift(p, n) by { ShiftPow2(low, n, top); }
    ShiftCompare(k, p, n);
  }

  /** The scale at which the inequality is read does not matter. */
  lemma KraftAnyScale(lengths: seq<nat>, top: nat)
    requires Within(lengths, top)
    ensures SatisfiesKraft(lengths) <==> KraftSum(lengths, top) <= Pow2(top)
    ensures FillsKraft(lengths) <==> KraftSum(lengths, top) == Pow2(top)
  {
    LongestIsLeast(lengths, top);
    SameAtScales(lengths, Longest(lengths), top);
  }

  lemma KraftUpdate(lengths: seq<nat>, top: nat, i: nat, x: nat)
    requires Within(lengths, top) && i < |lengths| && x <= top
    ensures Within(lengths[i := x], top)
    ensures KraftSum(lengths[i := x], top) == KraftSum(lengths, top) - Pow2(top - lengths[i]) + Pow2(top - x)
  {
    assert Shares(lengths[i := x], top) == Shares(lengths, top)[i := Pow2(top - x)];
    SumUpdate(Shares(lengths, top), i, Pow2(top - x));
  }

  lemma CostUpdate(weights: seq<nat>, lengths: seq<nat>, i: nat, x: nat)
    requires |weights| == |lengths| && i < |lengths|
    ensures Cost(weights, lengths[i := x]) == Cost(weights, lengths) - weights[i] * lengths[i] + weights[i] * x
  {
    assert Products(weights, lengths[i := x]) == Products(weights, lengths)[i := weights[i] * x];
    SumUpdate(Products(weights, lengths), i, weights[i] * x);
  }

  lemma KraftRemove(lengths: seq<nat>, top: nat, i: nat)
    requires Within(lengths, top) && i < |lengths|
    ensures Within(Remove(lengths, i), top)
    ensures KraftSum(lengths, top) == Pow2(top - lengths[i]) + KraftSum(Remove(lengths, i), top)
  {
    assert Shares(Remove(lengths, i), top) == Remove(Shares(lengths, top), i);
    SumRemove(Shares(lengths, top), i);
  }

  lemma CostRemove(weights: seq<nat>, lengths: seq<nat>, i: nat)
    requires |weights| == |lengths| && i < |lengths|
    ensures Cost(weights, lengths) == weights[i] * lengths[i] + Cost(Remove(weights, i), Remove(lengths, i))
  {
    assert Products(Remove(weights, i), Remove(lengths, i)) == Remove(Products(weights, lengths), i);
    SumRemove(Products(weights, lengths), i);
  }

  lemma KraftAppend(lengths: seq<nat>, top: nat, x: nat)
    requires Within(lengths, top) && x <= top
    ensures Within(lengths + [x], top)
    ensures KraftSum(lengths + [x], top) == KraftSum(lengths, top) + Pow2(top - x)
  {
    assert Shares(lengths + [x], top) == Shares(lengths, top) + [Pow2(top - x)];
    SumConcat(Shares(lengths, top), [Pow2(top - x)]);
  }

  lemma CostAppend(weights: seq<nat>, lengths: seq<nat>, w: nat, x: nat)
    requires |weights| == |lengths|
    ensures Cost(weights + [w], lengths + [x]) == Cost(weights, lengths) + w * x
  {
    assert Products(weights + [w], lengths + [x]) == Products(weights, lengths) + [w * x];
    SumConcat(Products(weights, lengths), [w * x]);
  }
}
