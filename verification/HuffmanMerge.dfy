/** The merge loop of tools/gen_huffman_table.py: a heap of subtrees, of which the two lightest are joined
    until one is left, while the lengths of the symbols in them grow. */
module HuffmanMerge {
  import opened Numbers

  /** A heap entry: a subtree, by its weight, the number that breaks ties, and the symbols at its leaves. */
  datatype Entry = Entry(weight: nat, order: nat, symbols: seq<nat>)

  datatype State = State(heap: seq<Entry>, lengths: seq<nat>, order: nat)

  predicate AllBelow(symbols: seq<nat>, n: nat) {
    forall k :: 0 <= k < |symbols| ==> symbols[k] < n
  }

  predicate InRange(st: State) {
    forall i :: 0 <= i < |st.heap| ==> AllBelow(st.heap[i].symbols, |st.lengths|)
  }

  function Start(weights: seq<nat>): (st: State)
    ensures InRange(st)
  {
    State(seq(|weights|, i requires 0 <= i < |weights| => Entry(weights[i], i, [i])),
          seq(|weights|, _ => 0), |weights|)
  }

  function Deepen(lengths: seq<nat>, symbols: seq<nat>): (r: seq<nat>)
    requires AllBelow(symbols, |lengths|)
    ensures |r| == |lengths|
    decreases |symbols|
  {
    if symbols == [] then lengths
    else Deepen(lengths[symbols[0] := lengths[symbols[0]] + 1], symbols[1..])
  }

  function Join(st: State, a: Entry, b: Entry): Entry {
    Entry(a.weight + b.weight, st.order, a.symbols + b.symbols)
  }

  /** Takes entry i out of the heap, then entry j of what is left, and puts their union back. */
  function Merge(st: State, i: nat, j: nat): (r: State)
    requires InRange(st) && i < |st.heap| && j < |st.heap| - 1
    ensures InRange(r) && |r.heap| == |st.heap| - 1 && |r.lengths| == |st.lengths|
  {
    var rest := Remove(st.heap, i);
    var joined := Join(st, st.heap[i], rest[j]);
    State(Remove(rest, j) + [joined], Deepen(st.lengths, joined.symbols), st.order + 1)
  }

  predicate Before(e: Entry, f: Entry) {
    e.weight < f.weight || (e.weight == f.weight && e.order < f.order)
  }

  /** The entry heapq.heappop takes: the first in the order of (weight, order). */
  function Least(heap: seq<Entry>): (i: nat)
    requires heap != []
    ensures i < |heap|
    ensures forall k :: 0 <= k < |heap| ==> !Before(heap[k], heap[i])
  {
    if |heap| == 1 then 0 else
    var k := Least(heap[1..]);
    assert forall m :: 1 <= m < |heap| ==> heap[m] == heap[1..][m - 1];
    if Before(heap[k + 1], heap[0]) then k + 1 else 0
  }

  /** The lengths the loop ends with. */
  function Finish(st: State): (lengths: seq<nat>)
    requires InRange(st)
    ensures |lengths| == |st.lengths|
    decreases |st.heap|
  {
    if |st.heap| <= 1 then st.lengths else
    var i := Least(st.heap);
    Finish(Merge(st, i, Least(Remove(st.heap, i))))
  }

  function HuffmanCode(weights: seq<nat>): (lengths: seq<nat>)
    ensures |lengths| == |weights|
  {
    Finish(Start(weights))
  }

  /** The inner loop: one more bit for every symbol of the joined subtree. */
  method DeepenInPlace(lengths: seq<nat>, symbols: seq<nat>) returns (r: seq<nat>)
    requires AllBelow(symbols, |lengths|)
    ensures r == Deepen(lengths, symbols)
  {
    r := lengths;
    for k := 0 to |symbols|
      invariant |r| == |lengths|
      invariant Deepen(r, symbols[k..]) == Deepen(lengths, symbols)
    {
      assert symbols[k..][1..] == symbols[k + 1..];
      r := r[symbols[k] := r[symbols[k]] + 1];
    }
  }

  lemma FinishGoesOn(st: State)
    requires InRange(st) && |st.heap| > 1
    ensures var i := Least(st.heap);
            Finish(st) == Finish(Merge(st, i, Least(Remove(st.heap, i))))
  {
  }

  lemma FinishEnds(st: State)
    requires InRange(st) && |st.heap| <= 1
    ensures Finish(st) == st.lengths
  {
  }

  method HuffmanLengths(weights: seq<nat>) returns (lengths: seq<nat>)
    ensures lengths == HuffmanCode(weights)
  {
    hide Finish, Deepen, Least;
    var st := Start(weights);
    var heap, order := st.heap, st.order;
    lengths := st.lengths;
    while |heap| > 1
      invariant InRange(State(heap, lengths, order))
      invariant Finish(State(heap, lengths, order)) == HuffmanCode(weights)
    {
      ghost var before := State(heap, lengths, order);
      FinishGoesOn(before);
      var i := Least(heap);
      var first := heap[i];
      heap := Remove(heap, i);
      var j := Least(heap);
      var second := heap[j];
      heap := Remove(heap, j);
      var joined := Entry(first.weight + second.weight, order, first.symbols + second.symbols);
      assert joined == Join(before, first, second);
      lengths := DeepenInPlace(lengths, joined.symbols);
      heap := heap + [joined];
      order := order + 1;
      assert State(heap, lengths, order) == Merge(before, i, j);
    }
    FinishEnds(State(heap, lengths, order));
  }
}
