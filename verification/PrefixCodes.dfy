/** Kraft's inequality for codes no word of which begins another, and what the optimality of code lengths means for the
    tables made from them. */
module PrefixCodes {
  import opened Numbers
  import opened Bits
  import opened Kraft
  import opened HuffmanRuns
  import opened HuffmanTable

  ghost predicate Short(words: seq<bits>, top: nat) {
    forall w :: w in words ==> |w| <= top
  }

  /** 2^top times the Kraft sum of the words. */
  function Weight(words: seq<bits>, top: nat): nat
    requires Short(words, top)
  {
    if words == [] then 0
    else
      assert words[0] in words;
      Pow2(top - |words[0]|) + Weight(words[1..], top)
  }

  predicate Clash(a: bits, b: bits) {
    a <= b || b <= a
  }

  /** No word begins another one. */
  ghost predicate Apart(words: seq<bits>) {
    words == [] || ((forall w :: w in words[1..] ==> !Clash(words[0], w)) && Apart(words[1..]))
  }

  /** What follows the first bit of the words that begin with it. */
  function Tails(words: seq<bits>, first: bool): seq<bits> {
    if words == [] then []
    else (if words[0] != [] && words[0][0] == first then [words[0][1..]] else []) + Tails(words[1..], first)
  }

  lemma {:induction false} TailOf(words: seq<bits>, first: bool, t: bits)
    requires t in Tails(words, first)
    ensures [first] + t in words
  {
    var w := words[0];
    if w != [] && w[0] == first && t == w[1..] {
      assert w == [first] + t;
    } else {
      TailOf(words[1..], first, t);
    }
  }

  lemma TailsShort(words: seq<bits>, first: bool, top: nat, less: nat)
    requires Short(words, top) && top == less + 1
    ensures Short(Tails(words, first), less)
  {
    forall t | t in Tails(words, first)
      ensures |t| <= less
    {
      TailOf(words, first, t);
      assert |[first] + t| == |t| + 1;
    }
  }

  lemma Longer(first: bool, a: bits, b: bits)
    ensures Clash(a, b) ==> Clash([first] + a, [first] + b)
  {
  }

  lemma {:induction false} TailsApart(words: seq<bits>, first: bool)
    requires Apart(words)
    ensures Apart(Tails(words, first))
  {
    if words != [] {
      TailsApart(words[1..], first);
      var w, rest := words[0], Tails(words[1..], first);
      if w != [] && w[0] == first {
        forall t | t in rest
          ensures !Clash(w[1..], t)
        {
          TailOf(words[1..], first, t);
          Longer(first, w[1..], t);
          assert w == [first] + w[1..];
        }
        assert Tails(words, first) == [w[1..]] + rest;
        ApartFrom(w[1..], rest);
      } else {
        assert Tails(words, first) == rest;
      }
    }
  }

  lemma ApartFrom(w: bits, rest: seq<bits>)
    requires Apart(rest) && forall t :: t in rest ==> !Clash(w, t)
    ensures Apart([w] + rest)
  {
    assert ([w] + rest)[1..] == rest;
  }

  lemma {:induction false} WeightSplits(words: seq<bits>, top: nat, less: nat)
    requires Short(words, top) && top == less + 1 && [] !in words
    ensures Short(Tails(words, false), less) && Short(Tails(words, true), less)
    ensures Weight(words, top) == Weight(Tails(words, false), less) + Weight(Tails(words, true), less)
  {
    TailsShort(words, false, top, less);
    TailsShort(words, true, top, less);
    if words != [] {
      var w, rest := words[0], words[1..];
      assert w in words && w != [];
      WeightSplits(rest, top, less);
      WeightOfOne(w[1..], Tails(rest, w[0]), less);
      assert Tails(words, w[0]) == [w[1..]] + Tails(rest, w[0]);
      assert Tails(words, !w[0]) == Tails(rest, !w[0]);
      assert top - |w| == less - |w[1..]|;
    }
  }

  lemma WeightOfOne(w: bits, rest: seq<bits>, top: nat)
    requires Short([w] + rest, top)
    ensures Short(rest, top) && |w| <= top
    ensures Weight([w] + rest, top) == Pow2(top - |w|) + Weight(rest, top)
  {
    var all := [w] + rest;
    assert all[0] == w && all[1..] == rest;
    assert w in all;
    assert forall v :: v in rest ==> v in all;
  }

  lemma EmptyClashes(w: bits)
    ensures Clash(w, []) && Clash([], w)
  {
  }

  lemma EmptyAlone(words: seq<bits>)
    requires Apart(words) && [] in words
    ensures words == [[]]
  {
    var w, rest := words[0], words[1..];
    var other := if rest == [] then [] else rest[0];
    assert rest != [] ==> other in rest;
    assert w != [] ==> [] in rest;
    EmptyClashes(w);
    EmptyClashes(other);
  }

  lemma NoLength(words: seq<bits>)
    requires Short(words, 0)
    ensures words != [] ==> [] in words
  {
    assert words != [] ==> words[0] in words;
  }

  lemma FewWords(top: nat)
    ensures Short([], top) && Weight([], top) == 0
    ensures Short([[]], top) && Weight([[]], top) == Pow2(top)
  {
    WeightOfOne([], [], top);
  }

  /** Kraft's inequality. */
  lemma {:induction false} WordsSatisfyKraft(words: seq<bits>, top: nat)
    requires Apart(words) && Short(words, top)
    ensures Weight(words, top) <= Pow2(top)
    decreases top
  {
    hide Apart, Tails, Weight, Short;
    FewWords(top);
    if [] in words {
      EmptyAlone(words);
    } else if top == 0 {
      NoLength(words);
    } else {
      WeightSplits(words, top, top - 1);
      TailsApart(words, false);
      TailsApart(words, true);
      WordsSatisfyKraft(Tails(words, false), top - 1);
      WordsSatisfyKraft(Tails(words, true), top - 1);
    }
  }

  // ---------------------------------------------------------------- tables

  function Words(table: seq<Code>): (r: seq<bits>)
    ensures |r| == |table|
    ensures forall s :: 0 <= s < |r| ==> r[s] == Word(table, s)
  {
    seq(|table|, s requires 0 <= s < |table| => Word(table, s))
  }

  lemma {:induction false} TableApart(table: seq<Code>, k: nat)
    requires PrefixFree(table) && k <= |table|
    ensures Apart(Words(table)[k..])
    decreases |table| - k
  {
    var words := Words(table);
    if k < |table| {
      TableApart(table, k + 1);
      assert words[k..][1..] == words[k + 1..];
      forall w | w in words[k + 1..]
        ensures !Clash(words[k], w)
      {
        var m :| 0 <= m < |words[k + 1..]| && words[k + 1..][m] == w;
        assert w == Word(table, k + 1 + m);
      }
    }
  }

  lemma {:induction false} TableWeight(table: seq<Code>, top: nat, k: nat)
    requires Within(Lengths(table), top) && k <= |table|
    ensures Short(Words(table)[k..], top)
    ensures Weight(Words(table)[k..], top) == Sum(Shares(Lengths(table), top)[k..])
    decreases |table| - k
  {
    var words, shares := Words(table), Shares(Lengths(table), top);
    if k < |table| {
      TableWeight(table, top, k + 1);
      assert words[k..] == [words[k]] + words[k + 1..] && shares[k..][1..] == shares[k + 1..];
      assert |words[k]| == Lengths(table)[k];
      WeightOfOne(words[k], words[k + 1..], top);
    }
  }

  /** A table in which no code is the beginning of another has lengths that satisfy the inequality. */
  lemma PrefixFreeSatisfiesKraft(table: seq<Code>)
    requires PrefixFree(table)
    ensures SatisfiesKraft(Lengths(table))
  {
    var top := Longest(Lengths(table));
    TableApart(table, 0);
    TableWeight(table, top, 0);
    assert Words(table)[0..] == Words(table);
    assert Shares(Lengths(table), top)[0..] == Shares(Lengths(table), top);
    WordsSatisfyKraft(Words(table), top);
  }

  /** So lengths that are optimal cost no more than those of any such table. */
  lemma NoTableIsBetter(weights: seq<nat>, lengths: seq<nat>, rival: seq<Code>)
    requires Optimal(weights, lengths) && |rival| == |weights| && PrefixFree(rival)
    ensures Cost(weights, lengths) <= Cost(weights, Lengths(rival))
  {
    PrefixFreeSatisfiesKraft(rival);
  }
}
