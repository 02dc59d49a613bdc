/** The code lengths of tools/gen_huffman_table.py follow the order in which the symbols come off the heap: a lighter
    symbol, or of two equally light ones the first, has no shorter a code. */
module HuffmanTies {
  import opened Numbers
  import opened HuffmanMerge
  import opened HuffmanRuns

  /** Symbol a comes off the heap before b. */
  predicate Sooner(weights: seq<nat>, a: nat, b: nat)
    requires a < |weights| && b < |weights|
  {
    weights[a] < weights[b] || (weights[a] == weights[b] && a < b)
  }

  /** x in e is already deeper than y in f, or e comes off the heap before f. */
  predicate Ahead(lengths: seq<nat>, e: Entry, x: nat, f: Entry, y: nat)
    requires x < |lengths| && y < |lengths|
  {
    lengths[x] > lengths[y] || (lengths[x] == lengths[y] && (e == f || Before(e, f)))
  }

  ghost predicate InStep(weights: seq<nat>, st: State) {
    && |st.lengths| == |weights| && InRange(st)
    && (forall e :: e in st.heap ==> e.order < st.order)
    && forall e, x, f, y ::
         (e in st.heap && x in e.symbols && f in st.heap && y in f.symbols
          && x < |weights| && y < |weights| && Sooner(weights, x, y)) ==> Ahead(st.lengths, e, x, f, y)
  }

  /** No subtree with more than one symbol is heavier than any two of them together. */
  ghost predicate Balanced(st: State, bound: nat) {
    && InRange(st)
    && (forall i, k :: 0 <= i < k < |st.heap| ==> bound <= st.heap[i].weight + st.heap[k].weight)
    && forall e, s :: e in st.heap && s in e.symbols && s < |st.lengths| && st.lengths[s] > 0 ==> e.weight <= bound
  }

  lemma StartInStep(weights: seq<nat>)
    ensures InStep(weights, Start(weights)) && Balanced(Start(weights), 0)
  {
  }

  ghost predicate Later(st: State, e: Entry, a: Entry, b: Entry) {
    e in st.heap && !Before(e, a) && !Before(e, b)
  }

  ghost predicate Apart(e: Entry, joined: Entry) {
    forall s :: s in e.symbols ==> s !in joined.symbols
  }

  /** What a merge of the first two entries leaves: the others, which come later, and the joined one. */
  ghost predicate Merged(st: State, next: State, a: Entry, b: Entry, joined: Entry) {
    && a in st.heap && b in st.heap && joined in next.heap
    && joined == Entry(a.weight + b.weight, st.order, a.symbols + b.symbols) && next.order == st.order + 1
    && |next.lengths| == |st.lengths|
    && (forall e :: e in next.heap && e != joined ==> Later(st, e, a, b) && Apart(e, joined))
    && forall s :: 0 <= s < |st.lengths| ==>
         next.lengths[s] == st.lengths[s] + (if s in joined.symbols then 1 else 0)
  }

  lemma LeftLater(st: State, i: nat, j: nat, k: nat)
    requires |st.heap| > 1 && i == Least(st.heap) && j == Least(Remove(st.heap, i)) && k < |st.heap| - 2
    ensures var rest := Remove(st.heap, i); Later(st, Remove(rest, j)[k], st.heap[i], rest[j])
  {
    var rest := Remove(st.heap, i);
    var m := if k < j then k else k + 1;
    assert Remove(rest, j)[k] == rest[m] && rest[m] == st.heap[if m < i then m else m + 1];
  }

  lemma LeftApart(n: nat, st: State, i: nat, j: nat, k: nat)
    requires i < |st.heap| && j < |st.heap| - 1 && k < |st.heap| - 2
    requires Leaves(st.heap) == multiset(Range(n))
    ensures var rest := Remove(st.heap, i); Apart(Remove(rest, j)[k], Join(st, st.heap[i], rest[j]))
  {
    SymbolsOnce(n, st, i, j);
    var rest := Remove(st.heap, i);
    var e, joined := Remove(rest, j)[k], Join(st, st.heap[i], rest[j]);
    forall s | s in e.symbols
      ensures s !in joined.symbols
    {
      assert s in multiset(e.symbols) && s !in multiset(joined.symbols);
    }
  }

  lemma MergedFirstTwo(weights: seq<nat>, st: State, i: nat, j: nat)
    requires Sound(weights, st) && |st.heap| > 1 && i == Least(st.heap) && j == Least(Remove(st.heap, i))
    ensures var a, b := st.heap[i], Remove(st.heap, i)[j];
            Merged(st, Merge(st, i, j), a, b, Join(st, a, b))
  {
    hide Sound, Deepen, Least, Leaves, Later, Apart;
    SoundLeaves(weights, st);
    var rest := Remove(st.heap, i);
    var a, b := st.heap[i], rest[j];
    var joined, left, next := Join(st, a, b), Remove(rest, j), Merge(st, i, j);
    MergedLengths(weights, st, i, j);
    assert b == st.heap[if j < i then j else j + 1];
    assert next.heap == left + [joined] && next.heap[|left|] == joined;
    forall e | e in next.heap && e != joined
      ensures Later(st, e, a, b) && Apart(e, joined)
    {
      var k :| 0 <= k < |next.heap| && next.heap[k] == e;
      assert left[k] == e;
      LeftLater(st, i, j, k);
      LeftApart(|weights|, st, i, j, k);
    }
  }

  lemma SoundLeaves(weights: seq<nat>, st: State)
    requires Sound(weights, st)
    ensures Leaves(st.heap) == multiset(Range(|weights|)) && |st.lengths| == |weights| && InRange(st)
  {
  }

  lemma MergeKeepsInStep(weights: seq<nat>, st: State, next: State, a: Entry, b: Entry, joined: Entry, bound: nat)
    requires InStep(weights, st) && Balanced(st, bound) && InRange(next) && Merged(st, next, a, b, joined)
    requires bound <= a.weight + b.weight
    ensures InStep(weights, next)
  {
    forall e, x, f, y | e in next.heap && x in e.symbols && f in next.heap && y in f.symbols
      && x < |weights| && y < |weights| && Sooner(weights, x, y)
      ensures Ahead(next.lengths, e, x, f, y)
    {
      StaysAhead(weights, st, next, a, b, joined, bound, e, x, f, y);
    }
  }

  lemma StaysAhead(weights: seq<nat>, st: State, next: State, a: Entry, b: Entry, joined: Entry, bound: nat,
                   e: Entry, x: nat, f: Entry, y: nat)
    requires InStep(weights, st) && Balanced(st, bound) && Merged(st, next, a, b, joined)
    requires bound <= a.weight + b.weight
    requires e in next.heap && x in e.symbols && f in next.heap && y in f.symbols
    requires x < |weights| && y < |weights| && Sooner(weights, x, y)
    ensures Ahead(next.lengths, e, x, f, y)
  {
    var d := if e != joined then e else if x in a.symbols then a else b;
    var g := if f != joined then f else if y in a.symbols then a else b;
    assert Ahead(st.lengths, d, x, g, y);
    if f == joined && e != joined && next.lengths[x] == next.lengths[y] {
      assert e.weight <= joined.weight && e.order < joined.order;
    }
  }

  lemma MergeKeepsBalance(st: State, next: State, a: Entry, b: Entry, joined: Entry, bound: nat)
    requires Balanced(st, bound) && InRange(next) && Merged(st, next, a, b, joined) && bound <= a.weight + b.weight
    ensures Balanced(next, joined.weight)
  {
    forall i, k | 0 <= i < k < |next.heap|
      ensures joined.weight <= next.heap[i].weight + next.heap[k].weight
    {
      assert next.heap[i] in next.heap && next.heap[k] in next.heap;
    }
  }

  /** The lengths that the loop ends with follow the order of the heap. */
  lemma {:induction false} FinishInStep(weights: seq<nat>, st: State, bound: nat, x: nat, y: nat)
    requires Sound(weights, st) && InStep(weights, st) && Balanced(st, bound) && st.heap != []
    requires x < |weights| && y < |weights| && Sooner(weights, x, y)
    ensures |Finish(st)| == |weights| && Finish(st)[x] >= Finish(st)[y]
    decreases |st.heap|
  {
    hide Sound, InStep, Finish, Least, Sooner, Merged;
    SoundLeaves(weights, st);
    if |st.heap| == 1 {
      FinishEnds(st);
      LastInStep(weights, st, x, y);
    } else {
      FinishGoesOn(st);
      var i := Least(st.heap);
      var j := Least(Remove(st.heap, i));
      var a, b, next := st.heap[i], Remove(st.heap, i)[j], Merge(st, i, j);
      MergedFirstTwo(weights, st, i, j);
      MergeKeepsSound(weights, st, i, j);
      BalancedPair(st, i, j, bound);
      MergeKeepsInStep(weights, st, next, a, b, Join(st, a, b), bound);
      MergeKeepsBalance(st, next, a, b, Join(st, a, b), bound);
      FinishInStep(weights, next, a.weight + b.weight, x, y);
    }
  }

  lemma BalancedPair(st: State, i: nat, j: nat, bound: nat)
    requires Balanced(st, bound) && i < |st.heap| && j < |st.heap| - 1
    ensures bound <= st.heap[i].weight + Remove(st.heap, i)[j].weight
  {
    assert Remove(st.heap, i)[j] == st.heap[if j < i then j else j + 1];
  }

  lemma OnlyEntry(weights: seq<nat>, st: State, s: nat)
    requires Sound(weights, st) && |st.heap| == 1 && s < |weights|
    ensures s in st.heap[0].symbols
  {
    LeavesRemove(st.heap, 0);
    assert Remove(st.heap, 0) == [];
    assert Range(|weights|)[s] == s;
    assert s in multiset(Range(|weights|));
  }

  lemma LastInStep(weights: seq<nat>, st: State, x: nat, y: nat)
    requires Sound(weights, st) && InStep(weights, st) && |st.heap| == 1
    requires x < |weights| && y < |weights| && Sooner(weights, x, y)
    ensures st.lengths[x] >= st.lengths[y]
  {
    OnlyEntry(weights, st, x);
    OnlyEntry(weights, st, y);
    assert Ahead(st.lengths, st.heap[0], x, st.heap[0], y);
  }

  /** Main result: of any two symbols the one that comes off the heap first has no shorter a code. */
  lemma SoonerNotShorter(weights: seq<nat>, x: nat, y: nat)
    requires x < |weights| && y < |weights| && Sooner(weights, x, y)
    ensures HuffmanCode(weights)[x] >= HuffmanCode(weights)[y]
  {
    StartSound(weights);
    StartInStep(weights);
    FinishInStep(weights, Start(weights), 0, x, y);
  }
}
