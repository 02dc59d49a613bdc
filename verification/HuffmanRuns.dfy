/** Every run of the merge loop, however it breaks ties, ends with an optimal complete code. */
module HuffmanRuns {
  import opened Numbers
  import opened Kraft
  import opened HuffmanMerge
  import opened HuffmanOptimality

  function Weights(heap: seq<Entry>): (r: seq<nat>)
    ensures |r| == |heap|
    ensures forall k :: 0 <= k < |r| ==> r[k] == heap[k].weight
  {
    seq(|heap|, k requires 0 <= k < |heap| => heap[k].weight)
  }

  /** The values of the symbols of a subtree. */
  function Pick(values: seq<nat>, symbols: seq<nat>): (r: seq<nat>)
    requires AllBelow(symbols, |values|)
    ensures |r| == |symbols|
    ensures forall k :: 0 <= k < |r| ==> r[k] == values[symbols[k]]
  {
    seq(|symbols|, k requires 0 <= k < |symbols| => values[symbols[k]])
  }

  ghost function Leaves(heap: seq<Entry>): multiset<nat> {
    if heap == [] then multiset{} else multiset(heap[0].symbols) + Leaves(heap[1..])
  }

  /** The weight of a subtree is that of its symbols, and its code words fill it. */
  ghost predicate Subtree(weights: seq<nat>, lengths: seq<nat>, e: Entry)
    requires |lengths| == |weights| && Within(lengths, |lengths|)
  {
    && AllBelow(e.symbols, |lengths|)
    && e.weight == Sum(Pick(weights, e.symbols))
    && Sum(Pick(Shares(lengths, |lengths|), e.symbols)) == Pow2(|lengths|)
  }

  /** What every state of the loop keeps: the subtrees share out the symbols, and each is a complete tree. */
  ghost predicate Sound(weights: seq<nat>, st: State) {
    && |st.lengths| == |weights|
    && InRange(st)
    && Leaves(st.heap) == multiset(Range(|weights|))
    && (forall s :: 0 <= s < |weights| ==> st.lengths[s] + |st.heap| <= |weights|)
    && (forall k :: 0 <= k < |st.heap| ==> Subtree(weights, st.lengths, st.heap[k]))
  }

  /** What is left of a rival code that needs at most bound bits: a code for the subtrees of the heap. */
  ghost predicate HasRival(weights: seq<nat>, st: State, bound: nat)
    requires |st.lengths| == |weights|
  {
    exists rival :: IsRival(weights, st, bound, rival)
  }

  ghost predicate IsRival(weights: seq<nat>, st: State, bound: nat, rival: seq<nat>)
    requires |st.lengths| == |weights|
  {
    && |rival| == |st.heap|
    && SatisfiesKraft(rival)
    && Cost(weights, st.lengths) + Cost(Weights(st.heap), rival) <= bound
  }

  /** One iteration under any tie-breaking: some two entries of least weight are joined. */
  ghost predicate Step(st: State, next: State) {
    InRange(st) && exists i, j :: LeastTwo(Weights(st.heap), i, j) && next == Merge(st, i, j)
  }

  ghost predicate Run(weights: seq<nat>, trace: seq<State>) {
    && trace != []
    && trace[0] == Start(weights)
    && forall k :: 0 <= k < |trace| - 1 ==> Step(trace[k], trace[k + 1])
  }

  // ---------------------------------------------------------------- the leaves of the heap

  lemma {:induction false} LeavesRemove(heap: seq<Entry>, i: nat)
    requires i < |heap|
    ensures Leaves(heap) == multiset(heap[i].symbols) + Leaves(Remove(heap, i))
  {
    if i == 0 {
      assert Remove(heap, 0) == heap[1..];
    } else {
      assert Remove(heap, i)[0] == heap[0];
      assert Remove(heap, i)[1..] == Remove(heap[1..], i - 1);
      LeavesRemove(heap[1..], i - 1);
    }
  }

  lemma {:induction false} LeavesAppend(heap: seq<Entry>, e: Entry)
    ensures Leaves(heap + [e]) == Leaves(heap) + multiset(e.symbols)
  {
    if heap == [] {
      assert [e][1..] == [];
    } else {
      assert (heap + [e])[1..] == heap[1..] + [e];
      LeavesAppend(heap[1..], e);
    }
  }

  lemma MergeLeaves(st: State, i: nat, j: nat)
    requires InRange(st) && i < |st.heap| && j < |st.heap| - 1
    ensures Leaves(Merge(st, i, j).heap) == Leaves(st.heap)
  {
    var rest := Remove(st.heap, i);
    LeavesRemove(st.heap, i);
    LeavesRemove(rest, j);
    LeavesAppend(Remove(rest, j), Join(st, st.heap[i], rest[j]));
  }

  ghost predicate Once(m: multiset<nat>) {
    forall s :: s in m ==> m[s] == 1
  }

  lemma OnceSplit(m: multiset<nat>, a: multiset<nat>, b: multiset<nat>)
    requires Once(m) && m == a + b
    ensures Once(a) && Once(b) && a !! b
  {
    forall s
      ensures a[s] + b[s] <= 1
    {
      assert m[s] == a[s] + b[s];
    }
  }

  /** No symbol is in the joined subtree twice, and none of it in any other subtree. */
  lemma SymbolsOnce(n: nat, st: State, i: nat, j: nat)
    requires i < |st.heap| && j < |st.heap| - 1
    requires Leaves(st.heap) == multiset(Range(n))
    ensures var rest := Remove(st.heap, i);
            var taken := multiset(st.heap[i].symbols + rest[j].symbols);
            && Once(taken)
            && (forall k :: 0 <= k < |rest| - 1 ==> multiset(Remove(rest, j)[k].symbols) !! taken)
  {
    var rest := Remove(st.heap, i);
    var taken := multiset(st.heap[i].symbols + rest[j].symbols);
    var left := Remove(rest, j);
    LeavesRemove(st.heap, i);
    LeavesRemove(rest, j);
    RangeOnce(n);
    OnceSplit(multiset(Range(n)), taken, Leaves(left));
    forall k | 0 <= k < |left|
      ensures multiset(left[k].symbols) !! taken
    {
      LeavesRemove(left, k);
    }
  }

  lemma {:induction false} RangeOnce(n: nat)
    ensures Once(multiset(Range(n)))
  {
    if n > 0 {
      RangeOnce(n - 1);
      assert Range(n) == Range(n - 1) + [n - 1];
      assert n - 1 !in Range(n - 1);
    }
  }

  // ---------------------------------------------------------------- what the inner loop does

  lemma {:induction false} DeepenAt(lengths: seq<nat>, symbols: seq<nat>, s: nat)
    requires AllBelow(symbols, |lengths|) && s < |lengths|
    ensures Deepen(lengths, symbols)[s] == lengths[s] + multiset(symbols)[s]
    decreases |symbols|
  {
    if symbols != [] {
      DeepenAt(lengths[symbols[0] := lengths[symbols[0]] + 1], symbols[1..], s);
      assert symbols == [symbols[0]] + symbols[1..];
    }
  }

  lemma {:induction false} DeepenCost(weights: seq<nat>, lengths: seq<nat>, symbols: seq<nat>)
    requires |weights| == |lengths| && AllBelow(symbols, |lengths|)
    ensures Cost(weights, Deepen(lengths, symbols)) == Cost(weights, lengths) + Sum(Pick(weights, symbols))
    decreases |symbols|
  {
    if symbols != [] {
      var s := symbols[0];
      CostUpdate(weights, lengths, s, lengths[s] + 1);
      assert weights[s] * (lengths[s] + 1) == weights[s] * lengths[s] + weights[s];
      DeepenCost(weights, lengths[s := lengths[s] + 1], symbols[1..]);
      assert Pick(weights, symbols)[1..] == Pick(weights, symbols[1..]);
    }
  }

  lemma PickConcat(values: seq<nat>, a: seq<nat>, b: seq<nat>)
    requires AllBelow(a, |values|) && AllBelow(b, |values|)
    ensures AllBelow(a + b, |values|)
    ensures Sum(Pick(values, a + b)) == Sum(Pick(values, a)) + Sum(Pick(values, b))
  {
    assert Pick(values, a + b) == Pick(values, a) + Pick(values, b);
    SumConcat(Pick(values, a), Pick(values, b));
  }

  lemma PickRemove(values: seq<nat>, a: seq<nat>, i: nat)
    requires AllBelow(a, |values|) && i < |a|
    ensures AllBelow(Remove(a, i), |values|)
    ensures Sum(Pick(values, a)) == values[a[i]] + Sum(Pick(values, Remove(a, i)))
  {
    SumRemove(Pick(values, a), i);
    assert Remove(Pick(values, a), i) == Pick(values, Remove(a, i));
  }

  /** A sum does not depend on the order of the symbols. */
  lemma {:induction false} PickPermutation(values: seq<nat>, a: seq<nat>, b: seq<nat>)
    requires AllBelow(a, |values|) && AllBelow(b, |values|) && multiset(a) == multiset(b)
    ensures Sum(Pick(values, a)) == Sum(Pick(values, b))
    decreases |a|
  {
    if a == [] {
      assert |multiset(b)| == |b|;
    } else {
      var i := RemoveBoth(a, b);
      PickRemove(values, a, 0);
      PickRemove(values, b, i);
      PickPermutation(values, Remove(a, 0), Remove(b, i));
    }
  }

  // ---------------------------------------------------------------- one merge

  /** The joined subtree: every length in it grew by one, which halves its shares. */
  lemma JoinedSubtree(weights: seq<nat>, lengths: seq<nat>, deeper: seq<nat>, a: Entry, b: Entry, joined: Entry)
    requires |deeper| == |lengths| == |weights|
    requires Within(lengths, |lengths|) && Within(deeper, |lengths|)
    requires Subtree(weights, lengths, a) && Subtree(weights, lengths, b)
    requires joined.weight == a.weight + b.weight && joined.symbols == a.symbols + b.symbols
    requires AllBelow(joined.symbols, |lengths|)
    requires forall k :: 0 <= k < |joined.symbols| ==>
               deeper[joined.symbols[k]] == lengths[joined.symbols[k]] + 1
    ensures Subtree(weights, deeper, joined)
  {
    var n := |lengths|;
    PickConcat(weights, a.symbols, b.symbols);
    PickConcat(Shares(lengths, n), a.symbols, b.symbols);
    var halves, wholes := Pick(Shares(deeper, n), joined.symbols), Pick(Shares(lengths, n), joined.symbols);
    forall k | 0 <= k < |halves|
      ensures wholes[k] == Shift(halves[k], 1)
    {
      var s := joined.symbols[k];
      assert deeper[s] == lengths[s] + 1;
      assert Pow2(n - lengths[s]) == 2 * Pow2(n - deeper[s]);
    }
    SumShift(halves, wholes, 1);
  }

  lemma OtherSubtree(weights: seq<nat>, lengths: seq<nat>, deeper: seq<nat>, e: Entry)
    requires |deeper| == |lengths| == |weights|
    requires Within(lengths, |lengths|) && Within(deeper, |lengths|)
    requires Subtree(weights, lengths, e)
    requires forall k :: 0 <= k < |e.symbols| ==> deeper[e.symbols[k]] == lengths[e.symbols[k]]
    ensures Subtree(weights, deeper, e)
  {
    var n := |lengths|;
    assert Pick(Shares(deeper, n), e.symbols) == Pick(Shares(lengths, n), e.symbols);
  }

  /** Exactly the symbols of the joined subtree move one level down. */
  lemma MergedLengths(weights: seq<nat>, st: State, i: nat, j: nat)
    requires Sound(weights, st) && i < |st.heap| && j < |st.heap| - 1
    ensures var taken := st.heap[i].symbols + Remove(st.heap, i)[j].symbols;
            var deeper := Merge(st, i, j).lengths;
            && AllBelow(taken, |weights|)
            && (forall s :: 0 <= s < |weights| ==>
                  deeper[s] == st.lengths[s] + (if s in multiset(taken) then 1 else 0))
  {
    var rest := Remove(st.heap, i);
    var taken := st.heap[i].symbols + rest[j].symbols;
    assert AllBelow(rest[j].symbols, |weights|);
    SymbolsOnce(|weights|, st, i, j);
    forall s | 0 <= s < |weights|
      ensures Merge(st, i, j).lengths[s] == st.lengths[s] + (if s in multiset(taken) then 1 else 0)
    {
      DeepenAt(st.lengths, taken, s);
    }
  }

  lemma MergedSubtrees(weights: seq<nat>, st: State, i: nat, j: nat, k: nat)
    requires Sound(weights, st) && i < |st.heap| && j < |st.heap| - 1 && k < |st.heap| - 1
    requires Within(st.lengths, |weights|) && Within(Merge(st, i, j).lengths, |weights|)
    ensures Subtree(weights, Merge(st, i, j).lengths, Merge(st, i, j).heap[k])
  {
    var rest := Remove(st.heap, i);
    var taken := st.heap[i].symbols + rest[j].symbols;
    var next := Merge(st, i, j);
    MergedLengths(weights, st, i, j);
    if k == |st.heap| - 2 {
      forall m | 0 <= m < |taken|
        ensures next.lengths[taken[m]] == st.lengths[taken[m]] + 1
      {
        assert taken[m] in multiset(taken);
      }
      assert Subtree(weights, st.lengths, rest[j]);
      JoinedSubtree(weights, st.lengths, next.lengths, st.heap[i], rest[j], next.heap[k]);
    } else {
      SymbolsOnce(|weights|, st, i, j);
      var e := Remove(rest, j)[k];
      assert e in st.heap;
      forall m | 0 <= m < |e.symbols|
        ensures next.lengths[e.symbols[m]] == st.lengths[e.symbols[m]]
      {
        assert e.symbols[m] in multiset(e.symbols);
      }
      OtherSubtree(weights, st.lengths, next.lengths, e);
    }
  }

  lemma MergeKeepsSound(weights: seq<nat>, st: State, i: nat, j: nat)
    requires Sound(weights, st) && i < |st.heap| && j < |st.heap| - 1
    ensures Sound(weights, Merge(st, i, j))
  {
    var next := Merge(st, i, j);
    MergeLeaves(st, i, j);
    MergedLengths(weights, st, i, j);
    forall k | 0 <= k < |next.heap|
      ensures Subtree(weights, next.lengths, next.heap[k])
    {
      MergedSubtrees(weights, st, i, j, k);
    }
  }

  /** The cost grows by the weight of the joined subtree ... */
  lemma MergeCost(weights: seq<nat>, st: State, i: nat, j: nat)
    requires Sound(weights, st) && i < |st.heap| && j < |st.heap| - 1
    ensures |Merge(st, i, j).lengths| == |weights|
    ensures Cost(weights, Merge(st, i, j).lengths)
            == Cost(weights, st.lengths) + st.heap[i].weight + st.heap[Original(i, j)].weight
  {
    var a, b := st.heap[i], Remove(st.heap, i)[j];
    assert b == st.heap[Original(i, j)];
    assert Subtree(weights, st.lengths, a) && Subtree(weights, st.lengths, b);
    DeepenCost(weights, st.lengths, a.symbols + b.symbols);
    PickConcat(weights, a.symbols, b.symbols);
  }

  lemma MergeWeights(st: State, i: nat, j: nat)
    requires InRange(st) && i < |st.heap| && j < |st.heap| - 1
    ensures Weights(Merge(st, i, j).heap) == Joined(Weights(st.heap), i, j)
  {
  }

  /** ... which is just what the rival saves. */
  lemma MergeKeepsRival(weights: seq<nat>, st: State, bound: nat, i: nat, j: nat)
    requires Sound(weights, st) && HasRival(weights, st, bound) && LeastTwo(Weights(st.heap), i, j)
    ensures |Merge(st, i, j).lengths| == |weights| && HasRival(weights, Merge(st, i, j), bound)
  {
    var rival :| IsRival(weights, st, bound, rival);
    MergeCost(weights, st, i, j);
    MergeWeights(st, i, j);
    var smaller := JoinRival(Weights(st.heap), rival, i, j);
    assert IsRival(weights, Merge(st, i, j), bound, smaller);
  }

  // ---------------------------------------------------------------- whole runs

  lemma StartSound(weights: seq<nat>)
    ensures Sound(weights, Start(weights))
  {
    var st := Start(weights);
    var n := |weights|;
    StartLeaves(weights);
    forall k | 0 <= k < n
      ensures Subtree(weights, st.lengths, st.heap[k])
    {
      assert Pick(weights, [k]) == [weights[k]];
      assert Pick(Shares(st.lengths, n), [k]) == [Pow2(n)];
    }
  }

  lemma StartLeaves(weights: seq<nat>)
    ensures Leaves(Start(weights).heap) == multiset(Range(|weights|))
  {
    var heap := Start(weights).heap;
    SingleLeaves(heap, |heap|);
    assert heap[..|heap|] == heap;
  }

  /** Entries with one symbol each, in order. */
  lemma {:induction false} SingleLeaves(heap: seq<Entry>, n: nat)
    requires n <= |heap| && forall k :: 0 <= k < |heap| ==> heap[k].symbols == [k]
    ensures Leaves(heap[..n]) == multiset(Range(n))
  {
    if n > 0 {
      SingleLeaves(heap, n - 1);
      OneLeafMore(heap[..n - 1], heap[n - 1], heap[..n], n);
    }
  }

  lemma OneLeafMore(heap: seq<Entry>, e: Entry, all: seq<Entry>, n: nat)
    requires n > 0 && e.symbols == [n - 1] && all == heap + [e] && Leaves(heap) == multiset(Range(n - 1))
    ensures Leaves(all) == multiset(Range(n))
  {
    hide Leaves;
    LeavesAppend(heap, e);
    RangeNext(n);
  }

  lemma StartRival(weights: seq<nat>, rival: seq<nat>)
    requires |rival| == |weights| && SatisfiesKraft(rival)
    ensures HasRival(weights, Start(weights), Cost(weights, rival))
  {
    var st := Start(weights);
    assert Weights(st.heap) == weights;
    SumOfEqual(Products(weights, st.lengths), 0);
    assert IsRival(weights, st, Cost(weights, rival), rival);
  }

  lemma {:induction false} RunSound(weights: seq<nat>, trace: seq<State>, k: nat)
    requires Run(weights, trace) && k < |trace|
    ensures Sound(weights, trace[k])
  {
    if k == 0 {
      StartSound(weights);
    } else {
      RunSound(weights, trace, k - 1);
      var i, j :| LeastTwo(Weights(trace[k - 1].heap), i, j) && trace[k] == Merge(trace[k - 1], i, j);
      MergeKeepsSound(weights, trace[k - 1], i, j);
    }
  }

  lemma {:induction false} RunRival(weights: seq<nat>, trace: seq<State>, rival: seq<nat>, k: nat)
    requires Run(weights, trace) && k < |trace| && |rival| == |weights| && SatisfiesKraft(rival)
    ensures Sound(weights, trace[k]) && HasRival(weights, trace[k], Cost(weights, rival))
  {
    RunSound(weights, trace, k);
    if k == 0 {
      StartRival(weights, rival);
    } else {
      RunRival(weights, trace, rival, k - 1);
      var i, j :| LeastTwo(Weights(trace[k - 1].heap), i, j) && trace[k] == Merge(trace[k - 1], i, j);
      MergeKeepsRival(weights, trace[k - 1], Cost(weights, rival), i, j);
    }
  }

  /** No code that satisfies Kraft's inequality is cheaper. */
  ghost predicate Optimal(weights: seq<nat>, lengths: seq<nat>) {
    && |lengths| == |weights|
    && forall rival :: |rival| == |weights| && SatisfiesKraft(rival) ==> Cost(weights, lengths) <= Cost(weights, rival)
  }

  lemma OneTreeFills(weights: seq<nat>, st: State)
    requires Sound(weights, st) && |st.heap| == 1
    ensures FillsKraft(st.lengths)
  {
    var n, e := |weights|, st.heap[0];
    LeavesRemove(st.heap, 0);
    assert Remove(st.heap, 0) == [];
    assert multiset(e.symbols) == multiset(Range(n));
    PickPermutation(Shares(st.lengths, n), e.symbols, Range(n));
    assert Pick(Shares(st.lengths, n), Range(n)) == Shares(st.lengths, n);
    KraftAnyScale(st.lengths, n);
  }

  /** Main result: whichever of several equally light subtrees each merge takes, the run ends with the lengths of
      a complete code of least cost. */
  lemma RunOptimal(weights: seq<nat>, trace: seq<State>)
    requires Run(weights, trace) && |trace[|trace| - 1].heap| == 1
    ensures FillsKraft(trace[|trace| - 1].lengths) && Optimal(weights, trace[|trace| - 1].lengths)
  {
    var last := |trace| - 1;
    RunSound(weights, trace, last);
    OneTreeFills(weights, trace[last]);
    forall rival | |rival| == |weights| && SatisfiesKraft(rival)
      ensures Cost(weights, trace[last].lengths) <= Cost(weights, rival)
    {
      RunRival(weights, trace, rival, last);
    }
  }

  /** So the cost does not depend on how ties are broken, though the lengths may. */
  lemma TieBreakingDoesNotMatter(weights: seq<nat>, one: seq<State>, other: seq<State>)
    requires Run(weights, one) && |one[|one| - 1].heap| == 1
    requires Run(weights, other) && |other[|other| - 1].heap| == 1
    ensures |one[|one| - 1].lengths| == |other[|other| - 1].lengths| == |weights|
    ensures Cost(weights, one[|one| - 1].lengths) == Cost(weights, other[|other| - 1].lengths)
  {
    RunOptimal(weights, one);
    RunOptimal(weights, other);
    var a, b := one[|one| - 1].lengths, other[|other| - 1].lengths;
    assert SatisfiesKraft(a) && SatisfiesKraft(b);
  }

  // ---------------------------------------------------------------- the run the tool makes

  lemma LeastWeight(heap: seq<Entry>)
    requires heap != []
    ensures forall k :: 0 <= k < |heap| ==> heap[Least(heap)].weight <= heap[k].weight
  {
    forall k | 0 <= k < |heap|
      ensures heap[Least(heap)].weight <= heap[k].weight
    {
      assert !Before(heap[k], heap[Least(heap)]);
    }
  }

  lemma LeastIsLightest(heap: seq<Entry>)
    requires |heap| > 1
    ensures LeastTwo(Weights(heap), Least(heap), Least(Remove(heap, Least(heap))))
  {
    var rest := Remove(heap, Least(heap));
    LeastWeight(heap);
    LeastWeight(rest);
    assert Weights(rest) == Remove(Weights(heap), Least(heap));
  }

  lemma {:induction false} ToolRun(weights: seq<nat>, trace: seq<State>) returns (full: seq<State>)
    requires Run(weights, trace) && weights != [] && trace[|trace| - 1].heap != []
    ensures Run(weights, full) && |full[|full| - 1].heap| == 1
    ensures InRange(trace[|trace| - 1]) && full[|full| - 1].lengths == Finish(trace[|trace| - 1])
    decreases |trace[|trace| - 1].heap|
  {
    var st := trace[|trace| - 1];
    RunSound(weights, trace, |trace| - 1);
    if |st.heap| == 1 {
      full := trace;
    } else {
      var i := Least(st.heap);
      var j := Least(Remove(st.heap, i));
      LeastIsLightest(st.heap);
      assert Step(st, Merge(st, i, j));
      full := ToolRun(weights, trace + [Merge(st, i, j)]);
    }
  }

  /** The lengths the tool computes are those of a complete prefix code that no other beats. */
  lemma HuffmanCodeOptimal(weights: seq<nat>)
    requires weights != []
    ensures FillsKraft(HuffmanCode(weights)) && Optimal(weights, HuffmanCode(weights))
  {
    var trace := ToolRun(weights, [Start(weights)]);
    RunOptimal(weights, trace);
  }
}
