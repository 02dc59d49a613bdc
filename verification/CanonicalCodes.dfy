/** Canonical codes in tools/gen_huffman_table.py, by the two ordering rules of section 3.2.2 of RFC 1951: shorter
    codes first, and equal lengths by symbol. Read as intervals of bit strings, the codes lie one after the other
    without gaps, which makes them prefix-free, and complete when the lengths fill Kraft's inequality. */
module CanonicalCodes {
  import opened Numbers
  import opened Kraft
  import opened HuffmanMerge
  import opened HuffmanRuns

  predicate Earlier(lengths: seq<nat>, a: nat, b: nat)
    requires a < |lengths| && b < |lengths|
  {
    lengths[a] < lengths[b] || (lengths[a] == lengths[b] && a < b)
  }

  ghost predicate InOrder(lengths: seq<nat>, order: seq<nat>)
    requires AllBelow(order, |lengths|)
  {
    forall i, j :: 0 <= i < j < |order| ==> Earlier(lengths, order[i], order[j])
  }

  function Insert(lengths: seq<nat>, order: seq<nat>, s: nat): (r: seq<nat>)
    requires s < |lengths| && AllBelow(order, |lengths|)
    ensures AllBelow(r, |lengths|) && |r| == |order| + 1
    ensures multiset(r) == multiset(order) + multiset{s}
  {
    if order == [] then [s]
    else if Earlier(lengths, s, order[0]) then [s] + order
    else
      assert order == [order[0]] + order[1..];
      [order[0]] + Insert(lengths, order[1..], s)
  }

  lemma {:induction false} InsertInOrder(lengths: seq<nat>, order: seq<nat>, s: nat)
    requires s < |lengths| && AllBelow(order, |lengths|) && InOrder(lengths, order) && s !in order
    ensures InOrder(lengths, Insert(lengths, order, s))
  {
    if order != [] && !Earlier(lengths, s, order[0]) {
      var rest := Insert(lengths, order[1..], s);
      InsertInOrder(lengths, order[1..], s);
      forall i | 0 <= i < |rest|
        ensures Earlier(lengths, order[0], rest[i])
      {
        Inserted(lengths, order[1..], s, i);
      }
    }
  }

  lemma Inserted(lengths: seq<nat>, order: seq<nat>, s: nat, i: nat)
    requires s < |lengths| && AllBelow(order, |lengths|) && i <= |order|
    ensures var rest := Insert(lengths, order, s); rest[i] == s || rest[i] in order
  {
    var rest := Insert(lengths, order, s);
    assert rest[i] in multiset(rest);
  }

  lemma SameMembers(s: seq<nat>, t: seq<nat>, x: nat)
    requires multiset(s) == multiset(t)
    ensures x in s <==> x in t
  {
    assert x in s <==> x in multiset(s);
    assert x in t <==> x in multiset(t);
  }

  /** The symbols below n sorted by length, then by symbol. */
  function Ordered(lengths: seq<nat>, n: nat): (order: seq<nat>)
    requires n <= |lengths|
    ensures AllBelow(order, |lengths|) && |order| == n
  {
    if n == 0 then [] else Insert(lengths, Ordered(lengths, n - 1), n - 1)
  }

  lemma NothingToSort(lengths: seq<nat>)
    ensures InOrder(lengths, [])
  {
  }

  lemma {:induction false} OrderedSorts(lengths: seq<nat>, n: nat)
    requires n <= |lengths|
    ensures multiset(Ordered(lengths, n)) == multiset(Range(n))
    ensures InOrder(lengths, Ordered(lengths, n))
  {
    hide Insert, InOrder, Earlier;
    if n == 0 {
      NothingToSort(lengths);
    } else {
      OrderedSorts(lengths, n - 1);
      RangeNext(n);
      SameMembers(Ordered(lengths, n - 1), Range(n - 1), n - 1);
      InsertInOrder(lengths, Ordered(lengths, n - 1), n - 1);
    }
  }

  /** All symbols, by length and then by symbol. */
  ghost predicate IsOrder(lengths: seq<nat>, order: seq<nat>) {
    && |order| == |lengths| && AllBelow(order, |lengths|)
    && multiset(order) == multiset(Range(|lengths|))
    && InOrder(lengths, order)
  }

  lemma PlacesInOrder(lengths: seq<nat>, order: seq<nat>, i: nat, j: nat)
    requires IsOrder(lengths, order) && i < |lengths| && j < |lengths| && i != j
    ensures order[i] != order[j] && (i < j <==> Earlier(lengths, order[i], order[j]))
  {
    if i < j {
      assert Earlier(lengths, order[i], order[j]);
    } else {
      assert Earlier(lengths, order[j], order[i]);
    }
  }

  /** Where the code words of the k-th symbol in order begin, among the 2^top bit strings. */
  function StartOf(lengths: seq<nat>, order: seq<nat>, top: nat, k: nat): nat
    requires Within(lengths, top) && AllBelow(order, |lengths|) && k <= |order|
  {
    Sum(Pick(Shares(lengths, top), order[..k]))
  }

  /** The code left-aligned in top bits: the first of the bit strings that begin with it. */
  function Slot(lengths: seq<nat>, codes: seq<nat>, top: nat, s: nat): nat
    requires Within(lengths, top) && |codes| == |lengths| && s < |lengths|
  {
    Shift(codes[s], top - lengths[s])
  }

  /** The code words of each symbol begin where those of the symbol before it end. */
  ghost predicate Canonical(lengths: seq<nat>, order: seq<nat>, codes: seq<nat>, top: nat)
    requires Within(lengths, top)
  {
    |codes| == |lengths| && IsOrder(lengths, order) && Placed(lengths, order, codes, top, |lengths|)
  }

  /** The same, of the first n symbols in order. */
  ghost predicate Placed(lengths: seq<nat>, order: seq<nat>, codes: seq<nat>, top: nat, n: nat)
    requires Within(lengths, top) && |codes| == |lengths| && AllBelow(order, |lengths|) && n <= |order|
  {
    forall k :: 0 <= k < n ==> Slot(lengths, codes, top, order[k]) == StartOf(lengths, order, top, k)
  }

  lemma StartNext(lengths: seq<nat>, order: seq<nat>, top: nat, k: nat)
    requires Within(lengths, top) && AllBelow(order, |lengths|) && k < |order|
    ensures StartOf(lengths, order, top, k + 1)
            == StartOf(lengths, order, top, k) + Pow2(top - lengths[order[k]])
  {
    var shares := Shares(lengths, top);
    assert Pick(shares, order[..k + 1]) == Pick(shares, order[..k]) + [shares[order[k]]];
    SumConcat(Pick(shares, order[..k]), [shares[order[k]]]);
  }

  lemma {:induction false} StartGrows(lengths: seq<nat>, order: seq<nat>, top: nat, k: nat, m: nat)
    requires Within(lengths, top) && AllBelow(order, |lengths|) && k <= m <= |order|
    ensures StartOf(lengths, order, top, k) <= StartOf(lengths, order, top, m)
  {
    if k < m {
      StartGrows(lengths, order, top, k, m - 1);
      StartNext(lengths, order, top, m - 1);
    }
  }

  lemma StartLast(lengths: seq<nat>, order: seq<nat>, top: nat)
    requires Within(lengths, top) && IsOrder(lengths, order)
    ensures StartOf(lengths, order, top, |lengths|) == KraftSum(lengths, top)
  {
    var n := |lengths|;
    assert order[..n] == order;
    PickPermutation(Shares(lengths, top), order, Range(n));
    assert Pick(Shares(lengths, top), Range(n)) == Shares(lengths, top);
  }

  lemma ShiftOne(code: nat, n: nat)
    ensures Shift(code + 1, n) == Shift(code, n) + Pow2(n)
  {
    ShiftSum(code, 1, n);
    ShiftPow2(0, n, n);
  }

  // ---------------------------------------------------------------- assigning the codes

  /** The loop before its k-th symbol: code is where the codes of length prev go on. */
  ghost predicate Assigning(lengths: seq<nat>, order: seq<nat>, codes: seq<nat>, code: nat, prev: nat, top: nat, k: nat)
    requires Within(lengths, top)
  {
    && IsOrder(lengths, order)
    && k <= |lengths| == |codes| && prev <= top
    && (k < |lengths| ==> prev <= lengths[order[k]])
    && Shift(code, top - prev) == StartOf(lengths, order, top, k)
    && Placed(lengths, order, codes, top, k)
  }

  lemma PlaceOne(lengths: seq<nat>, order: seq<nat>, codes: seq<nat>, top: nat, k: nat, code: nat)
    requires Within(lengths, top) && IsOrder(lengths, order) && |codes| == |lengths| && k < |lengths|
    requires Placed(lengths, order, codes, top, k)
    requires Shift(code, top - lengths[order[k]]) == StartOf(lengths, order, top, k)
    ensures Placed(lengths, order, codes[order[k] := code], top, k + 1)
  {
    var updated := codes[order[k] := code];
    forall m | 0 <= m < k + 1
      ensures Slot(lengths, updated, top, order[m]) == StartOf(lengths, order, top, m)
    {
      if m < k {
        PlacesInOrder(lengths, order, m, k);
        assert updated[order[m]] == codes[order[m]];
      }
    }
  }

  lemma AssignFirst(lengths: seq<nat>, order: seq<nat>, codes: seq<nat>, top: nat)
    requires Within(lengths, top) && IsOrder(lengths, order) && |codes| == |lengths|
    ensures Assigning(lengths, order, codes, 0, 0, top, 0)
  {
    assert Pick(Shares(lengths, top), order[..0]) == [];
    ShiftSum(0, 0, top);
  }

  lemma AssignNext(lengths: seq<nat>, order: seq<nat>, codes: seq<nat>, code: nat, prev: nat, top: nat, k: nat,
                   s: nat, shifted: nat)
    requires Within(lengths, top) && k < |lengths| && Assigning(lengths, order, codes, code, prev, top, k)
    requires s == order[k] && shifted == Shift(code, lengths[s] - prev)
    ensures Assigning(lengths, order, codes[s := shifted], shifted + 1, lengths[s], top, k + 1)
  {
    if k + 1 < |order| {
      PlacesInOrder(lengths, order, k, k + 1);
    }
    ShiftShift(code, lengths[s] - prev, top - lengths[s], top - prev);
    PlaceOne(lengths, order, codes, top, k, shifted);
    StartNext(lengths, order, top, k);
    ShiftOne(shifted, top - lengths[s]);
  }

  method AssignCodes(lengths: seq<nat>, ghost top: nat) returns (codes: seq<nat>)
    requires Within(lengths, top)
    ensures Canonical(lengths, Ordered(lengths, |lengths|), codes, top)
  {
    codes := seq(|lengths|, _ => 0);
    var order := Ordered(lengths, |lengths|);
    var code: nat, prev: nat := 0, 0;
    OrderedSorts(lengths, |lengths|);
    AssignFirst(lengths, order, codes, top);
    for k := 0 to |order|
      invariant Assigning(lengths, order, codes, code, prev, top, k)
    {
      var s := order[k];
      ghost var before, from := codes, code;
      code := Shift(code, lengths[s] - prev);
      AssignNext(lengths, order, before, from, prev, top, k, s, code);
      codes := codes[s := code];
      code := code + 1;
      prev := lengths[s];
    }
  }

  // ---------------------------------------------------------------- what canonical codes promise

  lemma PlaceOf(lengths: seq<nat>, order: seq<nat>, s: nat) returns (k: nat)
    requires IsOrder(lengths, order) && s < |lengths|
    ensures k < |lengths| && order[k] == s
  {
    assert Range(|lengths|)[s] == s;
    SameMembers(order, Range(|lengths|), s);
    k :| 0 <= k < |order| && order[k] == s;
  }

  /** The interval of code words of the k-th symbol ends where the next one begins. */
  lemma Interval(lengths: seq<nat>, order: seq<nat>, codes: seq<nat>, top: nat, k: nat)
    requires Within(lengths, top) && Canonical(lengths, order, codes, top) && k < |lengths|
    ensures Slot(lengths, codes, top, order[k]) == StartOf(lengths, order, top, k)
    ensures Slot(lengths, codes, top, order[k]) + Pow2(top - lengths[order[k]]) == StartOf(lengths, order, top, k + 1)
  {
    StartNext(lengths, order, top, k);
  }

  lemma IntervalInside(lengths: seq<nat>, order: seq<nat>, codes: seq<nat>, top: nat, s: nat)
    requires Within(lengths, top) && Canonical(lengths, order, codes, top) && s < |lengths|
    ensures Slot(lengths, codes, top, s) + Pow2(top - lengths[s]) <= KraftSum(lengths, top)
  {
    var k := PlaceOf(lengths, order, s);
    Interval(lengths, order, codes, top, k);
    StartGrows(lengths, order, top, k + 1, |lengths|);
    StartLast(lengths, order, top);
  }

  lemma IntervalBefore(lengths: seq<nat>, order: seq<nat>, codes: seq<nat>, top: nat, i: nat, j: nat)
    requires Within(lengths, top) && Canonical(lengths, order, codes, top) && i < j < |lengths|
    ensures Slot(lengths, codes, top, order[i]) + Pow2(top - lengths[order[i]]) <= Slot(lengths, codes, top, order[j])
  {
    Interval(lengths, order, codes, top, i);
    Interval(lengths, order, codes, top, j);
    StartGrows(lengths, order, top, i + 1, j);
  }

  lemma EndsWithin(code: nat, length: nat, rest: nat, top: nat)
    requires length + rest == top && Shift(code, rest) + Pow2(rest) <= Pow2(top)
    ensures code < Pow2(length)
  {
    ShiftOne(code, rest);
    ShiftPow2(length, rest, top);
    ShiftCompare(code + 1, Pow2(length), rest);
  }

  /** Every code fits in its length. */
  lemma CodeFits(lengths: seq<nat>, order: seq<nat>, codes: seq<nat>, top: nat, s: nat)
    requires Within(lengths, top) && Canonical(lengths, order, codes, top) && s < |lengths|
    requires KraftSum(lengths, top) <= Pow2(top)
    ensures codes[s] < Pow2(lengths[s])
  {
    hide KraftSum, Pow2, Shift;
    IntervalInside(lengths, order, codes, top, s);
    EndsWithin(codes[s], lengths[s], top - lengths[s], top);
  }

  /** The intervals of different symbols do not overlap. */
  lemma IntervalsApart(lengths: seq<nat>, order: seq<nat>, codes: seq<nat>, top: nat, a: nat, b: nat)
    requires Within(lengths, top) && Canonical(lengths, order, codes, top)
    requires a < |lengths| && b < |lengths| && a != b
    ensures var x, y := Slot(lengths, codes, top, a), Slot(lengths, codes, top, b);
            x + Pow2(top - lengths[a]) <= y || y + Pow2(top - lengths[b]) <= x
  {
    var i := PlaceOf(lengths, order, a);
    var j := PlaceOf(lengths, order, b);
    if i < j {
      IntervalBefore(lengths, order, codes, top, i, j);
    } else {
      IntervalBefore(lengths, order, codes, top, j, i);
    }
  }

  /** The canonical order, as values: the code words of a symbol come before those of any later one. */
  lemma CodesInOrder(lengths: seq<nat>, order: seq<nat>, codes: seq<nat>, top: nat, a: nat, b: nat)
    requires Within(lengths, top) && Canonical(lengths, order, codes, top)
    requires a < |lengths| && b < |lengths| && Earlier(lengths, a, b)
    ensures Slot(lengths, codes, top, a) + Pow2(top - lengths[a]) <= Slot(lengths, codes, top, b)
  {
    var i := PlaceOf(lengths, order, a);
    var j := PlaceOf(lengths, order, b);
    PlacesInOrder(lengths, order, i, j);
    IntervalBefore(lengths, order, codes, top, i, j);
  }

  /** Complete: every one of the 2^top bit strings begins with the code of some symbol. */
  lemma EveryStringCovered(lengths: seq<nat>, order: seq<nat>, codes: seq<nat>, top: nat, v: nat) returns (s: nat)
    requires Within(lengths, top) && Canonical(lengths, order, codes, top)
    requires KraftSum(lengths, top) == Pow2(top) && v < Pow2(top)
    ensures s < |lengths|
    ensures Slot(lengths, codes, top, s) <= v < Slot(lengths, codes, top, s) + Pow2(top - lengths[s])
  {
    StartLast(lengths, order, top);
    var k := Search(lengths, order, top, v, |lengths|);
    s := order[k];
    StartNext(lengths, order, top, k);
  }

  lemma {:induction false} Search(lengths: seq<nat>, order: seq<nat>, top: nat, v: nat, n: nat) returns (k: nat)
    requires Within(lengths, top) && AllBelow(order, |lengths|) && n <= |order|
    requires v < StartOf(lengths, order, top, n)
    ensures k < n && StartOf(lengths, order, top, k) <= v < StartOf(lengths, order, top, k + 1)
  {
    if StartOf(lengths, order, top, n - 1) <= v {
      k := n - 1;
    } else {
      k := Search(lengths, order, top, v, n - 1);
    }
  }
}
