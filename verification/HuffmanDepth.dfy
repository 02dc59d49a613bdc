/** How deep the codes of tools/gen_huffman_table.py get: a code of many bits needs as much weight as the Fibonacci
    numbers say, and weights that outgrow the sum of those before them do make a code that deep. */
module HuffmanDepth {
  import opened Numbers
  import opened Kraft
  import opened HuffmanMerge
  import opened HuffmanRuns
  import opened HuffmanTies
  import opened LimitedLengths

  // ---------------------------------------------------------------- little weight, short codes

  /** The least weight of a subtree with a leaf at that depth: the Fibonacci numbers from 1, 2 on. */
  function LeastWeightOf(depth: nat): (w: nat)
    ensures w > depth
  {
    if depth <= 1 then depth + 1 else LeastWeightOf(depth - 1) + LeastWeightOf(depth - 2)
  }

  lemma {:induction false} LeastWeightGrows(a: nat, b: nat)
    requires a <= b
    ensures LeastWeightOf(a) <= LeastWeightOf(b)
    decreases b
  {
    if a < b {
      LeastWeightGrows(a, b - 1);
    }
  }

  lemma LeastWeightBeyond()
    ensures LeastWeightOf(MAX_LENGTH + 1) == 4181
  {
    assert LeastWeightOf(5) == 13 && LeastWeightOf(6) == 21;
    assert LeastWeightOf(9) == 89 && LeastWeightOf(10) == 144;
    assert LeastWeightOf(13) == 610 && LeastWeightOf(14) == 987;
  }

  /** A subtree with a leaf at some depth has the weight for it, and so has any other one for the depth above. */
  ghost predicate Heavy(st: State) {
    && InRange(st)
    && (forall e :: e in st.heap ==> e.weight > 0)
    && (forall e, s :: e in st.heap && s in e.symbols && s < |st.lengths| ==> HasWeight(e, st.lengths[s]))
    && forall e, f, s ::
         (e in st.heap && f in st.heap && e != f && s in e.symbols && s < |st.lengths| && st.lengths[s] > 0)
         ==> HasWeight(f, st.lengths[s] - 1)
  }

  predicate HasWeight(e: Entry, depth: nat) {
    LeastWeightOf(depth) <= e.weight
  }

  lemma StartHeavy(weights: seq<nat>)
    requires Positive(weights)
    ensures Heavy(Start(weights))
  {
  }

  lemma JoinedHasWeight(a: Entry, b: Entry, depth: nat, joined: Entry)
    requires HasWeight(a, depth) && b.weight > 0 && (depth > 0 ==> HasWeight(b, depth - 1))
    requires joined.weight == a.weight + b.weight
    ensures HasWeight(joined, depth + 1)
  {
  }

  lemma MergeKeepsHeavy(st: State, next: State, a: Entry, b: Entry, joined: Entry)
    requires Heavy(st) && InRange(next) && Merged(st, next, a, b, joined) && HuffmanTies.Apart(a, b)
    ensures Heavy(next)
  {
    forall e, s | e in next.heap && s in e.symbols && s < |next.lengths|
      ensures HasWeight(e, next.lengths[s])
    {
      if e == joined {
        if s in a.symbols {
          JoinedHasWeight(a, b, st.lengths[s], joined);
        } else {
          JoinedHasWeight(b, a, st.lengths[s], joined);
        }
      }
    }
    forall e, f, s | e in next.heap && f in next.heap && e != f && s in e.symbols && s < |next.lengths|
      && next.lengths[s] > 0
      ensures HasWeight(f, next.lengths[s] - 1)
    {
      if e == joined {
        assert HasWeight(if s in a.symbols then a else b, st.lengths[s]);
      } else if f == joined {
        assert HasWeight(a, st.lengths[s] - 1);
      }
    }
  }

  lemma FirstTwoApart(weights: seq<nat>, st: State, i: nat, j: nat)
    requires Sound(weights, st) && i < |st.heap| && j < |st.heap| - 1
    ensures HuffmanTies.Apart(st.heap[i], Remove(st.heap, i)[j])
  {
    SymbolsOnce(|weights|, st, i, j);
    var a, b := st.heap[i].symbols, Remove(st.heap, i)[j].symbols;
    forall s | s in a
      ensures s !in b
    {
      assert s in multiset(a + b) && multiset(a + b)[s] == multiset(a)[s] + multiset(b)[s];
      assert multiset(a)[s] > 0;
    }
  }

  lemma LastHasAll(weights: seq<nat>, st: State, s: nat)
    requires Sound(weights, st) && Heavy(st) && |st.heap| == 1 && s < |weights|
    ensures LeastWeightOf(st.lengths[s]) <= Sum(weights)
  {
    var e := st.heap[0];
    OnlyEntry(weights, st, s);
    LeavesRemove(st.heap, 0);
    assert Remove(st.heap, 0) == [];
    assert multiset(e.symbols) == multiset(Range(|weights|));
    PickPermutation(weights, e.symbols, Range(|weights|));
    assert Pick(weights, Range(|weights|)) == weights;
    assert Subtree(weights, st.lengths, e) && HasWeight(e, st.lengths[s]);
  }

  lemma {:induction false} FinishHeavy(weights: seq<nat>, st: State, s: nat)
    requires Sound(weights, st) && Heavy(st) && st.heap != [] && s < |weights|
    ensures |Finish(st)| == |weights| && LeastWeightOf(Finish(st)[s]) <= Sum(weights)
    decreases |st.heap|
  {
    hide Sound, Heavy, Finish, Least, Merged, HuffmanTies.Apart;
    SoundLeaves(weights, st);
    if |st.heap| == 1 {
      FinishEnds(st);
      LastHasAll(weights, st, s);
    } else {
      FinishGoesOn(st);
      var i := Least(st.heap);
      var j := Least(Remove(st.heap, i));
      var a, b, next := st.heap[i], Remove(st.heap, i)[j], Merge(st, i, j);
      MergedFirstTwo(weights, st, i, j);
      FirstTwoApart(weights, st, i, j);
      MergeKeepsSound(weights, st, i, j);
      MergeKeepsHeavy(st, next, a, b, Join(st, a, b));
      FinishHeavy(weights, next, s);
    }
  }

  /** A code of some bits takes as much weight as the Fibonacci number of its length. */
  lemma DeepNeedsWeight(weights: seq<nat>, s: nat)
    requires Positive(weights) && s < |weights|
    ensures LeastWeightOf(HuffmanCode(weights)[s]) <= Sum(weights)
  {
    StartSound(weights);
    StartHeavy(weights);
    FinishHeavy(weights, Start(weights), s);
  }

  /** Weights of less than 4181 in all need no flattening. */
  lemma LightFits(weights: seq<nat>)
    requires weights != [] && Positive(weights) && Sum(weights) < 4181
    ensures Longest(HuffmanCode(weights)) <= MAX_LENGTH
  {
    var lengths := HuffmanCode(weights);
    var s :| 0 <= s < |lengths| && lengths[s] == Longest(lengths);
    DeepNeedsWeight(weights, s);
    LeastWeightBeyond();
    if lengths[s] > MAX_LENGTH {
      LeastWeightGrows(MAX_LENGTH + 1, lengths[s]);
    }
  }

  // ---------------------------------------------------------------- weights that outgrow those before them

  /** From symbol p on, each weight is more than all before it together. */
  ghost predicate Outgrow(weights: seq<nat>, p: nat) {
    forall k :: p <= k < |weights| ==> Sum(weights[..k]) < weights[k]
  }

  /** From symbol p on, the lengths are those of a chain: 1 for the last symbol, and one more for each before it. */
  ghost predicate Chain(lengths: seq<nat>, p: nat) {
    forall k :: p <= k < |lengths| ==> lengths[k] == |lengths| - k
  }

  lemma {:induction false} ChainShares(lengths: seq<nat>, top: nat, p: nat, left: nat)
    requires Within(lengths, top) && p <= |lengths| && Chain(lengths, p) && left + |lengths| == top + p
    ensures Sum(Shares(lengths, top)[p..]) + Pow2(left) == Pow2(top)
    decreases |lengths| - p
  {
    var shares := Shares(lengths, top);
    if p < |lengths| {
      ChainShares(lengths, top, p + 1, left + 1);
      assert shares[p..][1..] == shares[p + 1..];
      assert shares[p] == Pow2(left);
      assert Pow2(left + 1) == 2 * Pow2(left);
    }
  }

  lemma SumSplit(s: seq<nat>, p: nat)
    requires p < |s|
    ensures Sum(s) == Sum(s[..p]) + s[p] + Sum(s[p + 1..])
  {
    assert s == s[..p] + s[p..] && s[p..] == [s[p]] + s[p + 1..];
    SumConcat(s[..p], s[p..]);
    SumConcat([s[p]], s[p + 1..]);
    assert [s[p]][1..] == [];
  }

  lemma {:induction false} SumOfSums(s: seq<nat>, t: seq<nat>, u: seq<nat>)
    requires |s| == |t| == |u| && forall i :: 0 <= i < |s| ==> u[i] == s[i] + t[i]
    ensures Sum(u) == Sum(s) + Sum(t)
  {
    if s != [] {
      SumOfSums(s[1..], t[1..], u[1..]);
    }
  }

  lemma SharesPositive(lengths: seq<nat>, top: nat, p: nat)
    requires Within(lengths, top) && 0 < p <= |lengths|
    ensures Sum(Shares(lengths, top)[..p]) > 0
  {
  }

  /** One bit more for the symbols before p, and d bits for p. */
  function Sunk(lengths: seq<nat>, p: nat, d: nat): (r: seq<nat>)
    ensures |r| == |lengths|
    ensures forall i :: 0 <= i < |r| ==> r[i] == if i < p then lengths[i] + 1 else if i == p then d else lengths[i]
  {
    seq(|lengths|, i requires 0 <= i < |lengths| =>
      if i < p then lengths[i] + 1 else if i == p then d else lengths[i])
  }

  lemma Halves(x: nat, n: nat)
    ensures Shift(x, 1) == 2 * x
    ensures n > 0 ==> Pow2(n) == 2 * Pow2(n - 1)
  {
    assert Shift(x, 0) == x;
  }

  lemma SunkWithin(lengths: seq<nat>, top: nat, p: nat, d: nat)
    requires d <= top && top == Longest(lengths) + 1
    ensures Within(lengths, top) && Within(Sunk(lengths, p, d), top)
  {
  }

  lemma SunkHead(lengths: seq<nat>, top: nat, p: nat, d: nat)
    requires p <= |lengths| && Within(lengths, top) && Within(Sunk(lengths, p, d), top)
    ensures 2 * Sum(Shares(Sunk(lengths, p, d), top)[..p]) == Sum(Shares(lengths, top)[..p])
  {
    hide Sum, Shift, Pow2;
    var before, after := Shares(lengths, top)[..p], Shares(Sunk(lengths, p, d), top)[..p];
    forall k | 0 <= k < p
      ensures before[k] == Shift(after[k], 1)
    {
      assert Sunk(lengths, p, d)[k] == lengths[k] + 1;
      Halves(after[k], top - lengths[k]);
    }
    SumShift(after, before, 1);
    Halves(Sum(after), 0);
  }

  lemma SunkShares(lengths: seq<nat>, top: nat, p: nat, d: nat)
    requires p < |lengths| && d <= top && Within(lengths, top) && Within(Sunk(lengths, p, d), top)
    ensures KraftSum(Sunk(lengths, p, d), top)
            == Sum(Shares(Sunk(lengths, p, d), top)[..p]) + Pow2(top - d) + Sum(Shares(lengths, top)[p + 1..])
  {
    hide Sum, Pow2;
    var before, after := Shares(lengths, top), Shares(Sunk(lengths, p, d), top);
    SumSplit(after, p);
    assert after[p + 1..] == before[p + 1..];
  }

  lemma OneMore(w: nat, d: nat, length: nat)
    ensures w * (length + 1) == w * length + w
    ensures d < length ==> w * d + w <= w * length
  {
    if d < length {
      assert w * (d + 1) <= w * length;
    }
  }

  lemma SunkCostHead(weights: seq<nat>, lengths: seq<nat>, p: nat, d: nat)
    requires |weights| == |lengths| && p <= |lengths|
    ensures Sum(Products(weights, Sunk(lengths, p, d))[..p]) == Sum(Products(weights, lengths)[..p]) + Sum(weights[..p])
  {
    hide Sum;
    var before, after := Products(weights, lengths)[..p], Products(weights, Sunk(lengths, p, d))[..p];
    forall k | 0 <= k < p
      ensures after[k] == before[k] + weights[..p][k]
    {
      OneMore(weights[k], 0, lengths[k]);
    }
    SumOfSums(before, weights[..p], after);
  }

  lemma SunkCostTail(weights: seq<nat>, lengths: seq<nat>, p: nat, d: nat)
    requires |weights| == |lengths| && p < |lengths|
    ensures Products(weights, Sunk(lengths, p, d))[p + 1..] == Products(weights, lengths)[p + 1..]
    ensures Products(weights, Sunk(lengths, p, d))[p] == weights[p] * d
  {
  }

  lemma SunkCost(weights: seq<nat>, lengths: seq<nat>, p: nat, d: nat)
    requires |weights| == |lengths| && p < |lengths| && d < lengths[p] && Sum(weights[..p]) < weights[p]
    ensures Cost(weights, Sunk(lengths, p, d)) < Cost(weights, lengths)
  {
    hide Sum, Sunk;
    SumSplit(Products(weights, lengths), p);
    SumSplit(Products(weights, Sunk(lengths, p, d)), p);
    SunkCostHead(weights, lengths, p, d);
    SunkCostTail(weights, lengths, p, d);
    OneMore(weights[p], d, lengths[p]);
  }

  /** With a chain behind it, the symbols before p and p itself share what the chain leaves. */
  lemma ShareOfRest(lengths: seq<nat>, top: nat, p: nat, left: nat)
    requires Within(lengths, top) && FillsKraft(lengths) && p < |lengths| && Chain(lengths, p + 1)
    requires left + |lengths| == top + (p + 1)
    ensures Sum(Shares(lengths, top)[..p]) + Pow2(top - lengths[p]) == Pow2(left)
  {
    KraftAnyScale(lengths, top);
    SumSplit(Shares(lengths, top), p);
    ChainShares(lengths, top, p + 1, left);
  }

  /** If p is deeper than the chain would have it, raising it and sinking the symbols before p still fits. */
  lemma SunkFits(lengths: seq<nat>, p: nat, d: nat)
    requires FillsKraft(lengths) && p < |lengths| && Chain(lengths, p + 1) && d + p == |lengths|
    requires d < lengths[p]
    ensures SatisfiesKraft(Sunk(lengths, p, d))
  {
    hide FillsKraft, SatisfiesKraft, Sum, Shares, Sunk, Chain, Pow2, KraftSum;
    var top := Longest(lengths) + 1;
    var left := top - d + 1;
    ShareOfRest(lengths, top, p, left);
    SunkWithin(lengths, top, p, d);
    SunkHead(lengths, top, p, d);
    SunkShares(lengths, top, p, d);
    ChainShares(lengths, top, p + 1, left);
    assert Pow2(left) == 2 * Pow2(top - d) by { Halves(0, left); }
    KraftAnyScale(Sunk(lengths, p, d), top);
  }

  /** In front of a chain no symbol but the first is higher than the chain would go on. */
  lemma NotHigher(lengths: seq<nat>, p: nat, d: nat)
    requires FillsKraft(lengths) && 0 < p < |lengths| && Chain(lengths, p + 1) && d + p == |lengths|
    ensures lengths[p] >= d
  {
    var top := Longest(lengths) + d;
    ShareOfRest(lengths, top, p, top - d + 1);
    SharesPositive(lengths, top, p);
    if lengths[p] < d {
      Pow2Monotone(top - d + 1, top - lengths[p]);
    }
  }

  /** A symbol heavier than all before it together joins the chain behind it. */
  lemma ChainGrows(weights: seq<nat>, lengths: seq<nat>, p: nat)
    requires Optimal(weights, lengths) && FillsKraft(lengths) && 0 < p < |lengths|
    requires Sum(weights[..p]) < weights[p] && Chain(lengths, p + 1)
    ensures lengths[p] == |lengths| - p
  {
    hide FillsKraft, SatisfiesKraft, Sum, Sunk, Cost;
    var d := |lengths| - p;
    NotHigher(lengths, p, d);
    if lengths[p] > d {
      SunkFits(lengths, p, d);
      assert Cost(weights, lengths) <= Cost(weights, Sunk(lengths, p, d));
      SunkCost(weights, lengths, p, d);
    }
  }

  lemma {:induction false} OutgrowingMakesChain(weights: seq<nat>, lengths: seq<nat>, p: nat)
    requires Optimal(weights, lengths) && FillsKraft(lengths) && 0 < p <= |lengths| && Outgrow(weights, p)
    ensures Chain(lengths, p)
    decreases |lengths| - p
  {
    if p < |lengths| {
      OutgrowingMakesChain(weights, lengths, p + 1);
      ChainGrows(weights, lengths, p);
    }
  }

  /** A chain leaves room for so many codes in front of it. */
  lemma RoomBeforeChain(lengths: seq<nat>, top: nat, p: nat, left: nat)
    requires FillsKraft(lengths) && Within(lengths, top) && p <= |lengths| && Chain(lengths, p)
    requires left + |lengths| == top + p
    ensures p <= Pow2(left)
  {
    hide Sum, Pow2, FillsKraft;
    var shares := Shares(lengths, top);
    KraftAnyScale(lengths, top);
    ChainShares(lengths, top, p, left);
    assert shares == shares[..p] + shares[p..];
    SumConcat(shares[..p], shares[p..]);
    AtLeastCount(shares[..p]);
  }

  lemma {:induction false} AtLeastCount(s: seq<nat>)
    requires forall i :: 0 <= i < |s| ==> s[i] > 0
    ensures Sum(s) >= |s|
  {
    if s != [] {
      AtLeastCount(s[1..]);
    }
  }
}
