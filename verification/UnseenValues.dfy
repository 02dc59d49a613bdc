/** What becomes of the promise of tools/gen_huffman_table.py that values which never occur get the longest codes: when
    it holds, and counts for which it does not. */
module UnseenValues {
  import opened Numbers
  import opened Kraft
  import opened HuffmanMerge
  import opened HuffmanOptimality
  import opened HuffmanRuns
  import opened HuffmanTies
  import opened LimitedLengths
  import opened HuffmanDepth
  import opened HuffmanTable

  /** What two symbols add to the cost of a code. */
  function Both(v: nat, w: nat, l: nat, m: nat): nat {
    v * l + w * m
  }

  lemma Swapped(weights: seq<nat>, lengths: seq<nat>, a: nat, b: nat) returns (swapped: seq<nat>)
    requires |weights| == |lengths| && SatisfiesKraft(lengths) && a < |weights| && b < |weights| && a != b
    ensures |swapped| == |lengths| && SatisfiesKraft(swapped)
    ensures Cost(weights, swapped) + Both(weights[a], weights[b], lengths[a], lengths[b])
            == Cost(weights, lengths) + Both(weights[a], weights[b], lengths[b], lengths[a])
  {
    hide Cost, KraftSum;
    var top := Longest(lengths);
    var half := lengths[a := lengths[b]];
    swapped := half[b := lengths[a]];
    KraftUpdate(lengths, top, a, lengths[b]);
    KraftUpdate(half, top, b, lengths[a]);
    KraftAnyScale(swapped, top);
    CostUpdate(weights, lengths, a, lengths[b]);
    CostUpdate(weights, half, b, lengths[a]);
  }

  lemma Gain(light: nat, heavy: nat, short: nat, long: nat)
    ensures light < heavy && short < long ==> Both(light, heavy, long, short) < Both(light, heavy, short, long)
  {
    assert (heavy - light) * (long - short) == heavy * long - heavy * short - light * long + light * short;
  }

  /** In an optimal code a lighter symbol has no shorter a code. */
  lemma LighterNotShorter(weights: seq<nat>, lengths: seq<nat>, a: nat, b: nat)
    requires Optimal(weights, lengths) && SatisfiesKraft(lengths)
    requires a < |weights| && b < |weights| && weights[a] < weights[b]
    ensures lengths[a] >= lengths[b]
  {
    hide Cost, KraftSum, SatisfiesKraft;
    var swapped := Swapped(weights, lengths, a, b);
    Gain(weights[a], weights[b], lengths[a], lengths[b]);
    assert Cost(weights, lengths) <= Cost(weights, swapped);
  }

  lemma {:induction false} FlattenedAbove(weights: seq<nat>, times: nat, i: nat, k: nat, sum: nat)
    requires i < |weights| && k > 0 && sum == times + k
    ensures Flattened(weights, times)[i] >= Pow2(k) <==> weights[i] >= Pow2(sum)
  {
    if times > 0 {
      FlattenedAbove(weights, times - 1, i, k + 1, sum);
      PowersFromTwo(k);
    }
  }

  lemma PowersFromTwo(k: nat)
    requires k > 0
    ensures Pow2(k) >= 2
  {
    assert Pow2(k) == 2 * Pow2(k - 1);
  }

  lemma {:induction false} UnseenStaysLight(counts: seq<nat>, times: nat, a: nat)
    requires a < |counts| && counts[a] == 0
    ensures Flattened(Seen(counts), times)[a] == 1
  {
    if times > 0 {
      UnseenStaysLight(counts, times - 1, a);
    }
  }

  lemma {:induction false} FlattenedPositive(counts: seq<nat>, times: nat)
    ensures Positive(Flattened(Seen(counts), times))
  {
    if times > 0 {
      FlattenedPositive(counts, times - 1);
    }
  }

  /** Main result: no value has a longer code than one that never occurs, unless flattening has made the two equally
      light and it comes first; and then it is the one that never occurs that has no longer a code. Without flattening
      that is never so for a value that occurs. */
  lemma UnseenGetLongest(counts: seq<nat>, lengths: seq<nat>, times: nat, unseen: nat, seen: nat)
    requires LeastFlattened(counts, lengths, times)
    requires unseen < |counts| && seen < |counts| && counts[unseen] == 0 && seen != unseen
    ensures counts[seen] + 1 >= Pow2(times + 1) || unseen < seen ==> lengths[unseen] >= lengths[seen]
    ensures counts[seen] + 1 < Pow2(times + 1) && seen < unseen ==> lengths[seen] >= lengths[unseen]
  {
    var weights := Flattened(Seen(counts), times);
    UnseenStaysLight(counts, times, unseen);
    FlattenedPositive(counts, times);
    FlattenedAbove(Seen(counts), times, seen, 1, times + 1);
    assert Pow2(1) == 2;
    if Sooner(weights, unseen, seen) {
      SoonerNotShorter(weights, unseen, seen);
    } else {
      SoonerNotShorter(weights, seen, unseen);
    }
  }

  /** Flattening halves what the weights have above 1, or more. */
  lemma FlattenHalves(weights: seq<nat>)
    requires Positive(weights)
    ensures Sum(Flatten(weights)) + Sum(Flatten(weights)) <= Sum(weights) + |weights|
  {
    var flat := Flatten(weights);
    var twice := seq(|flat|, i requires 0 <= i < |flat| => flat[i] + flat[i]);
    var ones := seq(|flat|, _ => 1);
    var more := seq(|flat|, i requires 0 <= i < |flat| => weights[i] + 1);
    SumOfSums(flat, flat, twice);
    SumOfEqual(ones, 1);
    SumOfSums(weights, ones, more);
    SumMonotone(twice, more);
  }

  /** So many flattenings leave so much of the counts. */
  lemma {:induction false} FlattenedSum(counts: seq<nat>, times: nat)
    ensures Sum(Flattened(Seen(counts), times)) >= |counts|
    ensures Shift(Sum(Flattened(Seen(counts), times)) - |counts|, times) <= Sum(counts)
  {
    hide Sum, Flatten;
    var weights := Flattened(Seen(counts), times);
    FlattenedPositive(counts, times);
    AtLeastCount(weights);
    if times == 0 {
      SeenSum(counts);
    } else {
      var before := Flattened(Seen(counts), times - 1);
      FlattenedSum(counts, times - 1);
      FlattenedPositive(counts, times - 1);
      FlattenHalves(before);
      ShiftOnce(Sum(weights) - |counts|, times);
      ShiftCompare(2 * (Sum(weights) - |counts|), Sum(before) - |counts|, times - 1);
    }
  }

  lemma {:induction false} ShiftOnce(x: nat, n: nat)
    requires n > 0
    ensures Shift(x, n) == Shift(2 * x, n - 1)
  {
    if n > 1 {
      ShiftOnce(x, n - 1);
    }
  }

  /** How often the counts can have been flattened, told from how many bytes they count. */
  lemma FlatteningsNeeded(counts: seq<nat>, lengths: seq<nat>, times: nat, k: nat)
    requires |counts| == SYMBOLS && LeastFlattened(counts, lengths, times) && Sum(counts) < Shift(3925, k)
    ensures times <= k
  {
    hide HuffmanCode, Longest, Optimal, Flattened, Seen, Sum;
    var weights := Flattened(Seen(counts), k);
    FlattenedSum(counts, k);
    ShiftCompare(3925, Sum(weights) - SYMBOLS, k);
    FlattenedPositive(counts, k);
    LightFits(weights);
  }

  /** Main result, in terms of the counts alone: with less than 3925 * 2^k sample bytes the promise holds of every value
      that occurs 2^(k+1) - 1 times or more. */
  lemma OftenEnoughKeepsPromise(counts: seq<nat>, lengths: seq<nat>, times: nat, k: nat, unseen: nat, seen: nat)
    requires |counts| == SYMBOLS && LeastFlattened(counts, lengths, times) && Sum(counts) < Shift(3925, k)
    requires unseen < SYMBOLS && seen < SYMBOLS && counts[unseen] == 0 && counts[seen] + 1 >= Pow2(k + 1)
    ensures lengths[unseen] >= lengths[seen]
  {
    hide LeastFlattened, Flattened, Seen, Sum, Shift;
    FlatteningsNeeded(counts, lengths, times, k);
    Pow2Monotone(times + 1, k + 1);
    Pow2Monotone(1, k + 1);
    assert Pow2(1) == 2;
    UnseenGetLongest(counts, lengths, times, unseen, seen);
  }

  /** So with up to 3924 sample bytes nothing is flattened, and it holds of every value that occurs. */
  lemma FewSamplesKeepPromise(counts: seq<nat>, lengths: seq<nat>, times: nat, unseen: nat, seen: nat)
    requires |counts| == SYMBOLS && Sum(counts) <= 3924 && LeastFlattened(counts, lengths, times)
    requires unseen < SYMBOLS && seen < SYMBOLS && counts[unseen] == 0 && counts[seen] > 0
    ensures times == 0 && lengths[unseen] >= lengths[seen]
  {
    hide LeastFlattened, Flattened, Seen, Sum;
    assert Shift(3925, 0) == 3925 && Pow2(1) == 2;
    FlatteningsNeeded(counts, lengths, times, 0);
    OftenEnoughKeepsPromise(counts, lengths, times, 0, unseen, seen);
  }

  lemma SeenSum(counts: seq<nat>)
    ensures Sum(Seen(counts)) == Sum(counts) + |counts|
  {
    var ones := seq(|counts|, _ => 1);
    SumOfEqual(ones, 1);
    SumOfSums(counts, ones, Seen(counts));
  }

  // ---------------------------------------------------------------- an odd number of light symbols

  /** The first so many weights are 1, the others are not small. */
  ghost predicate OnesAndHeavy(weights: seq<nat>, ones: nat) {
    && 3 <= ones <= |weights|
    && (forall i :: 0 <= i < ones ==> weights[i] == 1)
    && (forall i :: ones <= i < |weights| ==> weights[i] >= 3)
  }

  /** A heavy leaf as deep as two light ones can move up while they move down. */
  lemma Raisable(weights: seq<nat>, lengths: seq<nat>, h: nat, depth: nat)
    requires |weights| == |lengths| && FillsKraft(lengths) && 2 <= h < |lengths| && depth > 0
    requires Within(lengths, depth) && lengths[0] == lengths[1] == lengths[h] == depth
    requires weights[0] == weights[1] == 1 && weights[h] >= 3
    ensures !Optimal(weights, lengths)
  {
    hide Cost, KraftSum, FillsKraft, SatisfiesKraft;
    var top := depth + 1;
    var one := lengths[0 := top];
    var two := one[1 := top];
    var raised := two[h := depth - 1];
    KraftAnyScale(lengths, top);
    KraftUpdate(lengths, top, 0, top);
    KraftUpdate(one, top, 1, top);
    KraftUpdate(two, top, h, depth - 1);
    assert Pow2(0) == 1 && Pow2(1) == 2 && Pow2(2) == 4;
    KraftAnyScale(raised, top);
    CostUpdate(weights, lengths, 0, top);
    CostUpdate(weights, one, 1, top);
    CostUpdate(weights, two, h, depth - 1);
    assert weights[h] * depth == weights[h] * (depth - 1) + weights[h];
    assert SatisfiesKraft(raised) && Cost(weights, raised) < Cost(weights, lengths);
  }

  /** With all light symbols at one depth, no heavy one is that deep. */
  lemma HeavyHigher(weights: seq<nat>, lengths: seq<nat>, ones: nat, depth: nat, h: nat)
    requires Optimal(weights, lengths) && FillsKraft(lengths) && OnesAndHeavy(weights, ones) && ones <= h < |weights|
    requires forall i :: 0 <= i < ones ==> lengths[i] == depth
    ensures lengths[h] < depth
  {
    hide FillsKraft, SatisfiesKraft, Cost;
    NoEmptyCode(lengths, 0);
    forall k | 0 <= k < |lengths|
      ensures lengths[k] <= depth
    {
      if k >= ones {
        FullSatisfies(lengths);
        LighterNotShorter(weights, lengths, 0, k);
      }
    }
    if lengths[h] == depth {
      Raisable(weights, lengths, h, depth);
    }
  }

  lemma FullSatisfies(lengths: seq<nat>)
    requires FillsKraft(lengths)
    ensures SatisfiesKraft(lengths)
  {
  }

  lemma {:induction false} OddTerms(s: seq<nat>, ones: nat)
    requires ones <= |s| && forall i :: 0 <= i < ones ==> s[i] == 1
    requires forall i :: ones <= i < |s| ==> s[i] % 2 == 0
    ensures Sum(s) % 2 == ones % 2
  {
    if ones == 0 {
      EvenTerms(s);
    } else {
      OddTerms(s[1..], ones - 1);
    }
  }

  /** An odd number of light symbols cannot all be equally deep. */
  lemma OddOnesDiffer(weights: seq<nat>, lengths: seq<nat>, ones: nat)
    requires Optimal(weights, lengths) && FillsKraft(lengths) && OnesAndHeavy(weights, ones) && ones % 2 == 1
    ensures exists i :: 0 <= i < ones && lengths[i] != lengths[0]
  {
    if forall i :: 0 <= i < ones ==> lengths[i] == lengths[0] {
      var depth := lengths[0];
      forall h | ones <= h < |lengths|
        ensures lengths[h] < depth
      {
        HeavyHigher(weights, lengths, ones, depth, h);
      }
      NoEmptyCode(lengths, 0);
      AllHalves(lengths, depth, ones);
      KraftAnyScale(lengths, depth);
      OddTerms(Shares(lengths, depth), ones);
    }
  }

  lemma DoubleEven(x: nat)
    ensures (2 * x) % 2 == 0
  {
  }

  lemma PowerEven(n: nat)
    ensures Pow2(0) == 1 && (n > 0 ==> Pow2(n) % 2 == 0)
  {
    if n > 0 {
      DoubleEven(Pow2(n - 1));
    }
  }

  lemma AllHalves(lengths: seq<nat>, depth: nat, ones: nat)
    requires depth > 0 && ones <= |lengths| && forall i :: 0 <= i < ones ==> lengths[i] == depth
    requires forall h :: ones <= h < |lengths| ==> lengths[h] < depth
    ensures Within(lengths, depth) && Pow2(depth) % 2 == 0
    ensures forall i :: 0 <= i < ones ==> Shares(lengths, depth)[i] == 1
    ensures forall h :: ones <= h < |lengths| ==> Shares(lengths, depth)[h] % 2 == 0
  {
    hide Pow2;
    PowerEven(depth);
    forall h | ones <= h < |lengths|
      ensures Shares(lengths, depth)[h] % 2 == 0
    {
      PowerEven(depth - lengths[h]);
    }
  }

  // ---------------------------------------------------------------- counts that break the promise

  const LIGHT: nat := 247   // values that occur once or never

  /** One value that occurs once, 246 that never do, and nine that occur 255, 511, ..., 65535 times. */
  function Example(): (counts: seq<nat>)
    ensures |counts| == SYMBOLS
    ensures forall i :: 0 <= i < SYMBOLS ==>
              counts[i] == if i == 0 then 1 else if i < LIGHT then 0 else Pow2(i - 239) - 1
  {
    seq(SYMBOLS, i requires 0 <= i < SYMBOLS => if i == 0 then 1 else if i < LIGHT then 0 else Pow2(i - 239) - 1)
  }

  lemma {:induction false} ExampleFlattened(times: nat, i: nat)
    requires times <= 6 && i < SYMBOLS
    ensures Flattened(Seen(Example()), times)[i]
            == if i >= LIGHT then Pow2(i - 239 - times) else if i == 0 && times == 0 then 2 else 1
  {
    if times > 0 {
      ExampleFlattened(times - 1, i);
      if i >= LIGHT {
        assert Pow2(i - 239 - (times - 1)) == 2 * Pow2(i - 239 - times);
      }
    }
  }

  /** The sum of the powers of two from some place on. */
  lemma {:induction false} PowersSum(weights: seq<nat>, p: nat, k: nat, m: nat, last: nat)
    requires p <= k <= |weights| && last + p == m + k
    requires forall i :: p <= i < k ==> weights[i] == Pow2(m + (i - p))
    ensures Sum(weights[..k]) + Pow2(m) == Sum(weights[..p]) + Pow2(last)
    decreases k
  {
    if p < k {
      PowersSum(weights, p, k - 1, m, last - 1);
      assert weights[..k] == weights[..k - 1] + [weights[k - 1]];
      SumConcat(weights[..k - 1], [weights[k - 1]]);
      assert weights[k - 1] == Pow2(last - 1);
      assert [weights[k - 1]][1..] == [];
      assert Sum([weights[k - 1]]) == weights[k - 1];
    }
  }

  lemma Powers()
    ensures Pow2(2) == 4 && Pow2(7) == 128 && Pow2(8) == 256 && Pow2(11) == 2048
  {
    Pow2Of8();
    assert Pow2(11) == 8 * Pow2(8);
  }

  /** As they are, the counts make a code of 17 bits. */
  lemma ExampleTooDeep()
    ensures Longest(HuffmanCode(Seen(Example()))) > MAX_LENGTH
  {
    hide HuffmanCode, Optimal, Sum;
    var weights := Seen(Example());
    var lengths := HuffmanCode(weights);
    HuffmanCodeOptimal(weights);
    ExampleOutgrows();
    OutgrowingMakesChain(weights, lengths, LIGHT);
    Powers();
    if Longest(lengths) <= MAX_LENGTH {
      RoomBeforeChain(lengths, MAX_LENGTH, LIGHT, 7);
    }
  }

  lemma ExampleOutgrows()
    ensures Outgrow(Seen(Example()), LIGHT)
  {
    hide Sum, Pow2;
    var weights := Seen(Example());
    LightSum(weights[..LIGHT], 2);
    Powers();
    forall k | LIGHT <= k < SYMBOLS
      ensures Sum(weights[..k]) < weights[k]
    {
      PowersSum(weights, LIGHT, k, 8, k - 239);
    }
  }

  lemma LightSum(s: seq<nat>, first: nat)
    requires s != [] && s[0] == first && forall i :: 1 <= i < |s| ==> s[i] == 1
    ensures Sum(s) == first + |s| - 1
  {
    SumOfEqual(s[1..], 1);
  }

  /** Flattened six times they are light enough for 16 bits. */
  lemma ExampleFits()
    ensures Longest(HuffmanCode(Flattened(Seen(Example()), 6))) <= MAX_LENGTH
  {
    hide Sum, Pow2;
    var weights := Flattened(Seen(Example()), 6);
    forall i | 0 <= i < SYMBOLS
      ensures weights[i] == if i >= LIGHT then Pow2(i - 245) else 1
    {
      ExampleFlattened(6, i);
    }
    FlattenedPositive(Example(), 6);
    LightSum(weights[..LIGHT], 1);
    PowersSum(weights, LIGHT, SYMBOLS, 2, 11);
    Powers();
    assert weights[..SYMBOLS] == weights;
    LightFits(weights);
  }

  lemma ExampleOnes(times: nat)
    requires 1 <= times <= 6
    ensures OnesAndHeavy(Flattened(Seen(Example()), times), LIGHT)
  {
    forall i | 0 <= i < SYMBOLS
      ensures if i >= LIGHT then Flattened(Seen(Example()), times)[i] >= 3
              else Flattened(Seen(Example()), times)[i] == 1
    {
      ExampleFlattened(times, i);
      if i >= LIGHT {
        Pow2Monotone(2, i - 239 - times);
        Powers();
      }
    }
  }

  lemma ExampleTimes(lengths: seq<nat>, times: nat)
    requires LeastFlattened(Example(), lengths, times) && Longest(lengths) <= MAX_LENGTH
    ensures 1 <= times <= 6
  {
    hide Example, HuffmanCode, Longest, Optimal;
    ExampleTooDeep();
    ExampleFits();
    assert times == 0 ==> Flattened(Seen(Example()), times) == Seen(Example());
  }

  lemma ExampleLengths(weights: seq<nat>, lengths: seq<nat>)
    requires |weights| == SYMBOLS && OnesAndHeavy(weights, LIGHT) && lengths == HuffmanCode(weights)
    ensures lengths[LIGHT - 1] < lengths[0]
  {
    hide HuffmanCode, FillsKraft, Optimal;
    HuffmanCodeOptimal(weights);
    OddOnesDiffer(weights, lengths, LIGHT);
    var i :| 0 <= i < LIGHT && lengths[i] != lengths[0];
    SoonerNotShorter(weights, 0, i);
    if i < LIGHT - 1 {
      SoonerNotShorter(weights, i, LIGHT - 1);
    }
  }

  /** Counts for which the promise is broken: the first value occurs once and the last of the rare ones never, but the
      table has a longer code for the first. */
  method UnseenGetsShorter() returns (counts: seq<nat>, table: seq<Code>)
    ensures counts == Example() && |table| == SYMBOLS
    ensures counts[0] == 1 && counts[LIGHT - 1] == 0 && table[LIGHT - 1].length < table[0].length
  {
    hide HuffmanCode, Optimal, PrefixFree, Complete, IsCanonical, Flattened;
    counts := Example();
    ghost var lengths, times;
    table, lengths, times := GenerateTable(counts);
    assert forall s :: 0 <= s < SYMBOLS ==> table[s].length <= MAX_LENGTH;
    LongestIsLeast(lengths, MAX_LENGTH);
    ExampleTimes(lengths, times);
    ExampleOnes(times);
    ExampleLengths(Flattened(Seen(counts), times), lengths);
  }
}
