/** Code tables as bit strings: prefix-freeness and completeness, and that generated tables have both. */
module HuffmanTable {
  import opened Numbers
  import opened Seqs
  import opened Bits
  import opened Kraft
  import opened LimitedLengths
  import opened CanonicalCodes

  /** PifHuffmanCode: the code bits right aligned, and how many of them there are. */
  datatype Code = Code(code: nat, length: nat)

  function Word(table: seq<Code>, s: nat): (r: bits)
    requires s < |table|
    ensures |r| == table[s].length
  {
    CodeBits(table[s].code, table[s].length)
  }

  ghost predicate WellFormed(table: seq<Code>) {
    && |table| == SYMBOLS
    && forall s :: 0 <= s < SYMBOLS ==>
         1 <= table[s].length <= MAX_LENGTH && table[s].code < Pow2(table[s].length)
  }

  /** No code word is the beginning of another one. */
  ghost predicate PrefixFree(table: seq<Code>) {
    forall a, b :: 0 <= a < |table| && 0 <= b < |table| && Word(table, a) <= Word(table, b) ==> a == b
  }

  /** Every bit string long enough begins with a code word. */
  ghost predicate Complete(table: seq<Code>) {
    forall b: bits :: |b| >= MAX_LENGTH ==> exists s :: 0 <= s < |table| && Word(table, s) <= b
  }

  function MakeTable(lengths: seq<nat>, codes: seq<nat>): (table: seq<Code>)
    requires |codes| == |lengths|
    ensures |table| == |lengths|
    ensures forall s :: 0 <= s < |table| ==> table[s] == Code(codes[s], lengths[s])
  {
    seq(|lengths|, s requires 0 <= s < |lengths| => Code(codes[s], lengths[s]))
  }

  function Lengths(table: seq<Code>): (r: seq<nat>)
    ensures |r| == |table|
    ensures forall s :: 0 <= s < |r| ==> r[s] == table[s].length
  {
    seq(|table|, s requires 0 <= s < |table| => table[s].length)
  }

  function Codes(table: seq<Code>): (r: seq<nat>)
    ensures |r| == |table|
    ensures forall s :: 0 <= s < |r| ==> r[s] == table[s].code
  {
    seq(|table|, s requires 0 <= s < |table| => table[s].code)
  }

  /** The codes follow one another in the order of their lengths, and of the symbols for equal lengths. */
  ghost predicate IsCanonical(table: seq<Code>) {
    && Within(Lengths(table), MAX_LENGTH)
    && Canonical(Lengths(table), Ordered(Lengths(table), |table|), Codes(table), MAX_LENGTH)
  }

  lemma MadeCanonical(lengths: seq<nat>, codes: seq<nat>)
    requires Within(lengths, MAX_LENGTH) && Canonical(lengths, Ordered(lengths, |lengths|), codes, MAX_LENGTH)
    ensures IsCanonical(MakeTable(lengths, codes))
  {
    hide Ordered;
    assert Lengths(MakeTable(lengths, codes)) == lengths;
    assert Codes(MakeTable(lengths, codes)) == codes;
  }

  /** A bit string that begins with a code lies in the interval of that code. */
  lemma PrefixInInterval(head: bits, tail: bits, rest: nat, top: nat)
    requires |head| + |tail| + rest == top
    ensures var x, y := Shift(Value(head), |tail| + rest), Shift(Value(head + tail), rest);
            x <= y < x + Pow2(|tail| + rest)
  {
    hide Value, Shift, Pow2;
    var v, t := Value(head), Value(tail);
    ValueConcat(head, tail);
    ShiftSum(Shift(v, |tail|), t, rest);
    ShiftShift(v, |tail|, rest, |tail| + rest);
    CodeOfValue(tail);
    ShiftCompare(Pow2(|tail|), t, rest);
    ShiftPow2(|tail|, rest, |tail| + rest);
  }

  lemma PrefixMeansOverlap(lengths: seq<nat>, codes: seq<nat>, top: nat, a: nat, b: nat)
    requires Within(lengths, top) && |codes| == |lengths| && a < |lengths| && b < |lengths|
    requires codes[a] < Pow2(lengths[a]) && codes[b] < Pow2(lengths[b])
    requires CodeBits(codes[a], lengths[a]) <= CodeBits(codes[b], lengths[b])
    ensures Slot(lengths, codes, top, a) <= Slot(lengths, codes, top, b)
            < Slot(lengths, codes, top, a) + Pow2(top - lengths[a])
  {
    hide Value, Shift, Pow2, CodeBits;
    var head, whole := CodeBits(codes[a], lengths[a]), CodeBits(codes[b], lengths[b]);
    var tail := whole[|head|..];
    assert head + tail == whole;
    ValueOfCode(codes[a], lengths[a]);
    ValueOfCode(codes[b], lengths[b]);
    assert |tail| + (top - lengths[b]) == top - lengths[a];
    PrefixInInterval(head, tail, top - lengths[b], top);
  }

  lemma CanonicalPrefixFree(lengths: seq<nat>, order: seq<nat>, codes: seq<nat>, top: nat)
    requires Within(lengths, top) && Canonical(lengths, order, codes, top)
    requires KraftSum(lengths, top) <= Pow2(top)
    ensures PrefixFree(MakeTable(lengths, codes))
  {
    var table := MakeTable(lengths, codes);
    forall a, b | 0 <= a < |table| && 0 <= b < |table| && Word(table, a) <= Word(table, b)
      ensures a == b
    {
      CodeFits(lengths, order, codes, top, a);
      CodeFits(lengths, order, codes, top, b);
      PrefixMeansOverlap(lengths, codes, top, a, b);
      if a != b {
        IntervalsApart(lengths, order, codes, top, a, b);
      }
    }
  }

  lemma SameInterval(v: nat, t: nat, code: nat, rest: nat)
    requires t < Pow2(rest) && Shift(code, rest) <= Shift(v, rest) + t < Shift(code, rest) + Pow2(rest)
    ensures v == code
  {
    ShiftOne(code, rest);
    ShiftOne(v, rest);
    ShiftCompare(code + 1, v, rest);
    ShiftCompare(v + 1, code, rest);
  }

  /** A value in the interval of a code begins with that code. */
  lemma InIntervalMeansPrefix(b: bits, code: nat, length: nat, rest: nat)
    requires length + rest == |b| && code < Pow2(length)
    requires Shift(code, rest) <= Value(b) < Shift(code, rest) + Pow2(rest)
    ensures CodeBits(code, length) <= b
  {
    var head, tail := b[..length], b[length..];
    SplitAt(b, length);
    ValueConcat(head, tail);
    CodeOfValue(tail);
    CodeOfValue(head);
    SameInterval(Value(head), Value(tail), code, rest);
  }

  lemma CanonicalCovers(lengths: seq<nat>, order: seq<nat>, codes: seq<nat>, b: bits) returns (s: nat)
    requires Within(lengths, |b|) && Canonical(lengths, order, codes, |b|)
    requires KraftSum(lengths, |b|) == Pow2(|b|)
    ensures s < |lengths| && CodeBits(codes[s], lengths[s]) <= b
  {
    CodeOfValue(b);
    s := EveryStringCovered(lengths, order, codes, |b|, Value(b));
    CodeFits(lengths, order, codes, |b|, s);
    InIntervalMeansPrefix(b, codes[s], lengths[s], |b| - lengths[s]);
  }

  lemma CanonicalComplete(lengths: seq<nat>, order: seq<nat>, codes: seq<nat>)
    requires Within(lengths, MAX_LENGTH) && Canonical(lengths, order, codes, MAX_LENGTH)
    requires KraftSum(lengths, MAX_LENGTH) == Pow2(MAX_LENGTH)
    ensures Complete(MakeTable(lengths, codes))
  {
    var table := MakeTable(lengths, codes);
    forall b: bits | |b| >= MAX_LENGTH
      ensures exists s :: 0 <= s < |table| && Word(table, s) <= b
    {
      var first := b[..MAX_LENGTH];
      var s := CanonicalCovers(lengths, order, codes, first);
      assert Word(table, s) <= first <= b;
    }
  }

  lemma CanonicalWellFormed(lengths: seq<nat>, order: seq<nat>, codes: seq<nat>)
    requires TableLengths(lengths) && Canonical(lengths, order, codes, MAX_LENGTH)
    requires KraftSum(lengths, MAX_LENGTH) == Pow2(MAX_LENGTH)
    ensures WellFormed(MakeTable(lengths, codes))
  {
    forall s | 0 <= s < SYMBOLS
      ensures codes[s] < Pow2(lengths[s])
    {
      CodeFits(lengths, order, codes, MAX_LENGTH, s);
    }
  }

  lemma CanonicalTable(lengths: seq<nat>, order: seq<nat>, codes: seq<nat>)
    requires TableLengths(lengths) && Canonical(lengths, order, codes, MAX_LENGTH)
    ensures var table := MakeTable(lengths, codes);
            WellFormed(table) && PrefixFree(table) && Complete(table)
  {
    KraftAnyScale(lengths, MAX_LENGTH);
    CanonicalWellFormed(lengths, order, codes);
    CanonicalPrefixFree(lengths, order, codes, MAX_LENGTH);
    CanonicalComplete(lengths, order, codes);
  }

  /** From byte counts to the table: every byte gets a code of 1 to 16 bits, no code is the beginning of another,
      every string of 16 bits begins with one, the codes are canonical, and no code is better for the flattened
      counts. */
  method GenerateTable(counts: seq<nat>) returns (table: seq<Code>, ghost lengths: seq<nat>, ghost times: nat)
    requires |counts| == SYMBOLS
    ensures WellFormed(table) && PrefixFree(table) && Complete(table) && IsCanonical(table)
    ensures |lengths| == SYMBOLS && forall s :: 0 <= s < SYMBOLS ==> table[s].length == lengths[s]
    ensures LeastFlattened(counts, lengths, times)
  {
    var ls, k := LimitedCode(counts);
    lengths, times := ls, k;
    var codes := AssignCodes(ls, MAX_LENGTH);
    table := MakeTable(ls, codes);
    CanonicalTable(ls, Ordered(ls, |ls|), codes);
    MadeCanonical(ls, codes);
  }
}
