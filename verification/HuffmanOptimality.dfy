/** Why the merge loop is right: joining the two lightest subtrees never loses against any other code.
    The proof follows one rival code, any lengths that satisfy Kraft's inequality, through the merges: at each of
    them it can be rearranged, at no cost, so that the two subtrees joined hang side by side. */
module HuffmanOptimality {
  import opened Numbers
  import opened Kraft

  ghost predicate Fits(lengths: seq<nat>, top: nat) {
    Within(lengths, top) && KraftSum(lengths, top) <= Pow2(top)
  }

  /** With all terms even but the one at p, the sum is odd. */
  lemma {:induction false} OneOddTerm(s: seq<nat>, p: nat)
    requires p < |s| && s[p] == 1
    requires forall k :: 0 <= k < |s| && k != p ==> s[k] % 2 == 0
    ensures Sum(s) % 2 == 1
  {
    SumRemove(s, p);
    EvenTerms(Remove(s, p));
  }

  lemma {:induction false} EvenTerms(s: seq<nat>)
    requires forall k :: 0 <= k < |s| ==> s[k] % 2 == 0
    ensures Sum(s) % 2 == 0
  {
    if s != [] {
      EvenTerms(s[1..]);
    }
  }

  /** Lengths that all stay below the scale also fit the next smaller one. */
  lemma LowerScale(lengths: seq<nat>, top: nat)
    requires top > 0 && Within(lengths, top - 1) && Fits(lengths, top)
    ensures Fits(lengths, top - 1)
  {
    SameAtScales(lengths, top - 1, top);
  }

  /** A lone deepest leaf can move up one level: the tree has an odd number of places taken at its bottom. */
  lemma RaiseLoneLeaf(weights: seq<nat>, lengths: seq<nat>, top: nat, p: nat) returns (raised: seq<nat>)
    requires |weights| == |lengths| && top > 0 && Fits(lengths, top)
    requires p < |lengths| && lengths[p] == top
    requires forall q :: 0 <= q < |lengths| && q != p ==> lengths[q] < top
    ensures |raised| == |lengths| && Fits(raised, top - 1)
    ensures Cost(weights, raised) <= Cost(weights, lengths)
  {
    OneOddTerm(Shares(lengths, top), p);
    raised := lengths[p := top - 1];
    KraftUpdate(lengths, top, p, top - 1);
    CostUpdate(weights, lengths, p, top - 1);
    assert weights[p] * (top - 1) <= weights[p] * top;
    assert Pow2(0) == 1 && Pow2(1) == 2;
    LowerScale(raised, top);
  }

  /** Any rival has an equally good form with two leaves at its deepest level. */
  lemma {:induction false} TwoDeepest(weights: seq<nat>, lengths: seq<nat>, top: nat)
      returns (better: seq<nat>, depth: nat, p: nat, q: nat)
    requires |weights| == |lengths| >= 2 && Fits(lengths, top)
    ensures |better| == |lengths| && Fits(better, depth) && depth > 0
    ensures Cost(weights, better) <= Cost(weights, lengths)
    ensures p < |better| && q < |better| && p != q && better[p] == better[q] == depth
    decreases top
  {
    if top == 0 {
      AllAtRoot(lengths);
      assert false;
    } else if p0: nat :| p0 < |lengths| && lengths[p0] == top {
      if q0: nat :| q0 < |lengths| && lengths[q0] == top && q0 != p0 {
        better, depth, p, q := lengths, top, p0, q0;
      } else {
        var raised := RaiseLoneLeaf(weights, lengths, top, p0);
        better, depth, p, q := TwoDeepest(weights, raised, top - 1);
      }
    } else {
      LowerScale(lengths, top);
      better, depth, p, q := TwoDeepest(weights, lengths, top - 1);
    }
  }

  /** Two leaves cannot both be the root. */
  lemma AllAtRoot(lengths: seq<nat>)
    requires |lengths| >= 2
    ensures !Fits(lengths, 0)
  {
    if Within(lengths, 0) {
      KraftRemove(lengths, 0, 0);
      KraftRemove(Remove(lengths, 0), 0, 0);
    }
  }

  /** Giving the lighter of two leaves the deeper place costs nothing. */
  lemma Exchange(weights: seq<nat>, lengths: seq<nat>, top: nat, i: nat, p: nat) returns (better: seq<nat>)
    requires |weights| == |lengths| && Fits(lengths, top)
    requires i < |lengths| && p < |lengths| && weights[i] <= weights[p] && lengths[p] == top
    ensures better == lengths[i := top][p := lengths[i]]
    ensures Fits(better, top) && Cost(weights, better) <= Cost(weights, lengths)
  {
    better := lengths[i := top][p := lengths[i]];
    if i == p {
      assert better == lengths;
    } else {
      KraftUpdate(lengths, top, i, top);
      KraftUpdate(lengths[i := top], top, p, lengths[i]);
      CostUpdate(weights, lengths, i, top);
      CostUpdate(weights, lengths[i := top], p, lengths[i]);
      ExchangeGain(weights[i], weights[p], lengths[i], top);
    }
  }

  lemma ExchangeGain(light: nat, heavy: nat, short: nat, long: nat)
    requires light <= heavy && short <= long
    ensures light * long + heavy * short <= light * short + heavy * long
  {
    assert (heavy - light) * (long - short) >= 0;
    assert (heavy - light) * (long - short) == heavy * long - heavy * short - light * long + light * short;
  }

  /** Entry i is a lightest one, and entry j of what is left without it is a lightest one there. */
  ghost predicate LeastTwo(weights: seq<nat>, i: nat, j: nat) {
    && i < |weights| && j < |weights| - 1
    && (forall k :: 0 <= k < |weights| ==> weights[i] <= weights[k])
    && (forall k :: 0 <= k < |weights| - 1 ==> Remove(weights, i)[j] <= Remove(weights, i)[k])
  }

  /** The index in the whole sequence of entry j of what is left without entry i. */
  function Original(i: nat, j: nat): nat {
    if j < i then j else j + 1
  }

  /** A rival can be rearranged so that the two lightest leaves are both at its deepest level. */
  lemma LightestDeepest(weights: seq<nat>, lengths: seq<nat>, top: nat, i: nat, j: nat)
      returns (better: seq<nat>, depth: nat)
    requires |weights| == |lengths| && Fits(lengths, top) && LeastTwo(weights, i, j)
    ensures |better| == |lengths| && Fits(better, depth) && depth > 0
    ensures better[i] == better[Original(i, j)] == depth
    ensures Cost(weights, better) <= Cost(weights, lengths)
  {
    hide Cost, KraftSum;
    var k := Original(i, j);
    var deep, d, p, q := TwoDeepest(weights, lengths, top);
    depth := d;
    if q == i {
      p, q := q, p;
    }
    var first := Exchange(weights, deep, depth, i, p);
    assert first[i] == first[q] == depth;
    assert weights[q] == Remove(weights, i)[if q < i then q else q - 1];
    assert weights[k] <= weights[q];
    better := Exchange(weights, first, depth, k, q);
  }

  /** The weights of the heap after the two entries are joined. */
  function Joined(weights: seq<nat>, i: nat, j: nat): (r: seq<nat>)
    requires i < |weights| && j < |weights| - 1
    ensures |r| == |weights| - 1
  {
    var rest := Remove(weights, i);
    Remove(rest, j) + [weights[i] + rest[j]]
  }

  lemma RemoveTwoKraft(lengths: seq<nat>, top: nat, i: nat, j: nat) returns (rest: seq<nat>)
    requires Within(lengths, top) && i < |lengths| && j < |lengths| - 1
    ensures rest == Remove(Remove(lengths, i), j) && Within(rest, top)
    ensures KraftSum(lengths, top)
            == Pow2(top - lengths[i]) + Pow2(top - lengths[Original(i, j)]) + KraftSum(rest, top)
  {
    KraftRemove(lengths, top, i);
    KraftRemove(Remove(lengths, i), top, j);
    rest := Remove(Remove(lengths, i), j);
  }

  lemma RemoveTwoCost(weights: seq<nat>, lengths: seq<nat>, i: nat, j: nat) returns (ws: seq<nat>, ls: seq<nat>)
    requires |weights| == |lengths| && i < |lengths| && j < |lengths| - 1
    ensures ws == Remove(Remove(weights, i), j) && ls == Remove(Remove(lengths, i), j)
    ensures var k := Original(i, j);
            Cost(weights, lengths) == weights[i] * lengths[i] + weights[k] * lengths[k] + Cost(ws, ls)
  {
    CostRemove(weights, lengths, i);
    CostRemove(Remove(weights, i), Remove(lengths, i), j);
    ws, ls := Remove(Remove(weights, i), j), Remove(Remove(lengths, i), j);
  }

  /** A rival for the leaves gives a rival for the joined leaves that saves their weight: two leaves at the deepest
      level make room for one just above it. */
  lemma JoinRival(weights: seq<nat>, lengths: seq<nat>, i: nat, j: nat) returns (rival: seq<nat>)
    requires |weights| == |lengths| && SatisfiesKraft(lengths) && LeastTwo(weights, i, j)
    ensures |rival| == |lengths| - 1 && SatisfiesKraft(rival)
    ensures Cost(Joined(weights, i, j), rival) + weights[i] + weights[Original(i, j)] <= Cost(weights, lengths)
  {
    hide Cost, KraftSum;
    var better, depth := LightestDeepest(weights, lengths, Longest(lengths), i, j);
    var ws, ls := RemoveTwoCost(weights, better, i, j);
    var rest := RemoveTwoKraft(better, depth, i, j);
    rival := JoinLeaf(ws, rest, depth, weights[i], weights[Original(i, j)]);
  }

  lemma JoinLeaf(weights: seq<nat>, lengths: seq<nat>, depth: nat, w: nat, v: nat) returns (rival: seq<nat>)
    requires |weights| == |lengths| && depth > 0 && Within(lengths, depth)
    requires KraftSum(lengths, depth) + 2 <= Pow2(depth)
    ensures |rival| == |lengths| + 1 && SatisfiesKraft(rival)
    ensures Cost(weights + [w + v], rival) + w + v == Cost(weights, lengths) + w * depth + v * depth
  {
    rival := lengths + [depth - 1];
    LeafAboveFits(lengths, depth);
    CostAppend(weights, lengths, w + v, depth - 1);
    OneLevelUp(w, v, depth);
  }

  lemma LeafAboveFits(lengths: seq<nat>, depth: nat)
    requires depth > 0 && Within(lengths, depth)
    requires KraftSum(lengths, depth) + 2 <= Pow2(depth)
    ensures SatisfiesKraft(lengths + [depth - 1])
  {
    KraftAppend(lengths, depth, depth - 1);
    KraftAnyScale(lengths + [depth - 1], depth);
    assert Pow2(1) == 2 * Pow2(0);
  }

  lemma OneLevelUp(w: nat, v: nat, depth: nat)
    requires depth > 0
    ensures (w + v) * (depth - 1) + w + v == w * depth + v * depth
  {
  }
}
