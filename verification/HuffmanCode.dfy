/** What coding with a table means, on bit strings: the round trip, cut-off streams, and arbitrary input. */
module HuffmanCode {
  import opened Numbers
  import opened Seqs
  import opened Bits
  import opened Options
  import opened LimitedLengths
  import opened HuffmanTable

  function Encoded(table: seq<Code>, data: seq<byte>): bits
    requires |table| == SYMBOLS
  {
    if data == [] then [] else Word(table, data[0]) + Encoded(table, data[1..])
  }

  /** The first symbol from s on with this code, or the table size. */
  function Find(table: seq<Code>, code: nat, length: nat, s: nat): (r: nat)
    requires s <= |table|
    ensures s <= r <= |table|
    ensures r < |table| ==> table[r] == Code(code, length)
    ensures forall k :: s <= k < r ==> table[k] != Code(code, length)
    decreases |table| - s
  {
    if s == |table| || table[s] == Code(code, length) then s else Find(table, code, length, s + 1)
  }

  /** The symbol read from the front of b, trying codes of this length and longer ones. */
  function NextSymbol(table: seq<Code>, b: bits, length: nat): (r: Option<nat>)
    ensures r.Some? ==> r.value < |table| && length <= table[r.value].length <= Min(MAX_LENGTH, |b|)
    decreases MAX_LENGTH + 1 - length
  {
    if length > MAX_LENGTH || length > |b| then None else
    var s := Find(table, Value(b[..length]), length, 0);
    if s < |table| then Some(s) else NextSymbol(table, b, length + 1)
  }

  /** The symbols read from b: at most count of them, fewer if one is not found. */
  function Decoded(table: seq<Code>, b: bits, count: nat): (r: seq<byte>)
    requires |table| == SYMBOLS
    ensures |r| <= count
  {
    if count == 0 then [] else
    match NextSymbol(table, b, 1)
    case None => []
    case Some(s) => [s] + Decoded(table, b[table[s].length..], count - 1)
  }

  // ---------------------------------------------------------------- reading one symbol

  lemma {:induction false} EncodedAppend(table: seq<Code>, data: seq<byte>, more: seq<byte>)
    requires |table| == SYMBOLS
    ensures Encoded(table, data + more) == Encoded(table, data) + Encoded(table, more)
  {
    if data == [] {
      assert data + more == more;
    } else {
      assert (data + more)[1..] == data[1..] + more;
      EncodedAppend(table, data[1..], more);
    }
  }

  lemma EncodedOne(table: seq<Code>, x: byte)
    requires |table| == SYMBOLS
    ensures Encoded(table, [x]) == Word(table, x)
  {
    assert [x][1..] == [];
  }

  /** A code read is a code word at the front of b, of a length not tried before. */
  lemma {:induction false} ReadIsPrefix(table: seq<Code>, b: bits, length: nat)
    ensures var r := NextSymbol(table, b, length); r.Some? ==> Word(table, r.value) <= b
    decreases MAX_LENGTH + 1 - length
  {
    if length <= MAX_LENGTH && length <= |b| {
      var s := Find(table, Value(b[..length]), length, 0);
      if s < |table| {
        CodeOfValue(b[..length]);
      } else {
        ReadIsPrefix(table, b, length + 1);
      }
    }
  }

  lemma WordIsFound(table: seq<Code>, b: bits, s: nat)
    requires WellFormed(table) && s < SYMBOLS && Word(table, s) <= b
    ensures Find(table, Value(b[..table[s].length]), table[s].length, 0) < SYMBOLS
  {
    ValueOfCode(table[s].code, table[s].length);
    assert b[..table[s].length] == Word(table, s);
  }

  lemma WordsAgree(table: seq<Code>, b: bits, s: nat, t: nat)
    requires PrefixFree(table) && s < |table| && t < |table|
    requires Word(table, s) <= b && Word(table, t) <= b && |Word(table, t)| <= |Word(table, s)|
    ensures t == s
  {
    assert Word(table, t) <= Word(table, s);
  }

  /** With a prefix-free table the code word at the front of b, if there is one, is the one read. */
  lemma {:induction false} PrefixIsRead(table: seq<Code>, b: bits, s: nat, length: nat)
    requires WellFormed(table) && PrefixFree(table)
    requires s < SYMBOLS && Word(table, s) <= b && length <= table[s].length
    ensures NextSymbol(table, b, length) == Some(s)
    decreases table[s].length - length
  {
    WordIsFound(table, b, s);
    var t := Find(table, Value(b[..length]), length, 0);
    if t < |table| {
      CodeOfValue(b[..length]);
      WordsAgree(table, b, s, t);
    } else {
      PrefixIsRead(table, b, s, length + 1);
    }
  }

  /** Exactly then is a symbol read. */
  lemma ReadIffPrefix(table: seq<Code>, b: bits, s: nat)
    requires WellFormed(table) && PrefixFree(table) && s < SYMBOLS
    ensures NextSymbol(table, b, 1) == Some(s) <==> Word(table, s) <= b
  {
    ReadIsPrefix(table, b, 1);
    if Word(table, s) <= b {
      PrefixIsRead(table, b, s, 1);
    }
  }

  // ---------------------------------------------------------------- whole streams

  /** Reading the symbol at the front, and then the rest. */
  lemma DecodedFirst(table: seq<Code>, x: byte, more: bits, count: nat)
    requires WellFormed(table) && PrefixFree(table) && count > 0
    ensures Decoded(table, Word(table, x) + more, count) == [x] + Decoded(table, more, count - 1)
  {
    Parts(Word(table, x), more);
    PrefixIsRead(table, Word(table, x) + more, x, 1);
  }

  lemma EncodedFirst(table: seq<Code>, data: seq<byte>, rest: bits)
    requires |table| == SYMBOLS && data != []
    ensures Encoded(table, data) + rest == Word(table, data[0]) + (Encoded(table, data[1..]) + rest)
  {
    Assoc(Word(table, data[0]), Encoded(table, data[1..]), rest);
  }

  /** Decoding gives back what was encoded, whatever follows it in the stream. */
  lemma {:induction false} DecodeEncoded(table: seq<Code>, data: seq<byte>, rest: bits, count: nat)
    requires WellFormed(table) && PrefixFree(table) && count == |data|
    ensures Decoded(table, Encoded(table, data) + rest, count) == data
    decreases |data|
  {
    if count > 0 {
      DecodeEncoded(table, data[1..], rest, count - 1);
      DecodesOneMore(table, data, rest, count);
    }
  }

  /** No code word is at the front of b. */
  ghost predicate NoWord(table: seq<Code>, b: bits) {
    forall s :: 0 <= s < |table| ==> !(Word(table, s) <= b)
  }

  lemma NothingDecoded(table: seq<Code>, rest: bits, count: nat)
    requires |table| == SYMBOLS && NoWord(table, rest)
    ensures Decoded(table, rest, count) == []
  {
    ReadIsPrefix(table, rest, 1);
  }

  /** Asked for more symbols than the stream holds, the decoder stops at the end of the last whole one. */
  lemma {:induction false} DecodeStops(table: seq<Code>, data: seq<byte>, rest: bits, count: nat)
    requires WellFormed(table) && PrefixFree(table) && NoWord(table, rest) && count >= |data|
    ensures Decoded(table, Encoded(table, data) + rest, count) == data
    decreases |data|
  {
    hide Decoded, NoWord;
    if data == [] {
      Units(rest);
      NothingDecoded(table, rest, count);
    } else {
      DecodeStops(table, data[1..], rest, count - 1);
      DecodesOneMore(table, data, rest, count);
    }
  }

  lemma DecodesOneMore(table: seq<Code>, data: seq<byte>, rest: bits, count: nat)
    requires WellFormed(table) && PrefixFree(table) && data != [] && count > 0
    requires Decoded(table, Encoded(table, data[1..]) + rest, count - 1) == data[1..]
    ensures Decoded(table, Encoded(table, data) + rest, count) == data
  {
    EncodedFirst(table, data, rest);
    DecodedFirst(table, data[0], Encoded(table, data[1..]) + rest, count);
    assert [data[0]] + data[1..] == data;
  }

  /** How many bytes of data have codes that all fit in size bits. */
  function Fitting(table: seq<Code>, data: seq<byte>, size: nat): (n: nat)
    requires |table| == SYMBOLS
    ensures n <= |data|
  {
    if data == [] || table[data[0]].length > size then 0
    else 1 + Fitting(table, data[1..], size - table[data[0]].length)
  }

  /** It is the longest such prefix. */
  lemma {:induction false} FittingIsLongest(table: seq<Code>, data: seq<byte>, size: nat, n: nat)
    requires |table| == SYMBOLS && n <= |data|
    ensures n <= Fitting(table, data, size) <==> |Encoded(table, data[..n])| <= size
  {
    if n > 0 {
      assert data[..n][1..] == data[1..][..n - 1];
      if table[data[0]].length <= size {
        FittingIsLongest(table, data[1..], size - table[data[0]].length, n - 1);
      }
    }
  }

  lemma PrefixOfTake(a: bits, whole: bits, size: nat)
    requires size <= |whole|
    ensures a <= whole[..size] ==> a <= whole
  {
  }

  lemma ProperBeginning(table: seq<Code>, d: nat, size: nat)
    requires PrefixFree(table) && d < |table| && size < table[d].length
    ensures NoWord(table, Word(table, d)[..size])
  {
    forall s | 0 <= s < |table|
      ensures !(Word(table, s) <= Word(table, d)[..size])
    {
      PrefixOfTake(Word(table, s), Word(table, d), size);
    }
  }

  /** A stream cut off at size bits: the codes that fit, and the beginning of the next one. */
  lemma {:induction false} CutStream(table: seq<Code>, data: seq<byte>, size: nat) returns (rest: bits)
    requires WellFormed(table) && PrefixFree(table) && size < |Encoded(table, data)|
    ensures Encoded(table, data)[..size] == Encoded(table, data[..Fitting(table, data, size)]) + rest
    ensures NoWord(table, rest)
  {
    var first := Word(table, data[0]);
    if |first| > size {
      rest := first[..size];
      ProperBeginning(table, data[0], size);
    } else {
      rest := CutStream(table, data[1..], size - |first|);
      var k := Fitting(table, data, size);
      assert data[..k][1..] == data[1..][..k - 1];
      assert Encoded(table, data)[..size] == first + Encoded(table, data[1..])[..size - |first|];
    }
  }

  lemma DecodeSome(table: seq<Code>, data: seq<byte>, rest: bits, count: nat)
    requires WellFormed(table) && PrefixFree(table) && NoWord(table, rest)
    ensures Decoded(table, Encoded(table, data) + rest, count) == data[..Min(count, |data|)]
  {
    if count < |data| {
      assert data == data[..count] + data[count..];
      EncodedAppend(table, data[..count], data[count..]);
      var more := Encoded(table, data[count..]) + rest;
      assert Encoded(table, data) + rest == Encoded(table, data[..count]) + more;
      DecodeEncoded(table, data[..count], more, count);
    } else {
      DecodeStops(table, data, rest, count);
      assert data[..|data|] == data;
    }
  }

  /** A stream cut off at size bits decodes to exactly the longest prefix of the data whose codes fit. */
  lemma DecodeCutStream(table: seq<Code>, data: seq<byte>, size: nat, count: nat)
    requires WellFormed(table) && PrefixFree(table) && size < |Encoded(table, data)|
    ensures Decoded(table, Encoded(table, data)[..size], count)
            == data[..Min(count, Fitting(table, data, size))]
  {
    var rest := CutStream(table, data, size);
    var k := Fitting(table, data, size);
    DecodeSome(table, data[..k], rest, count);
    assert data[..k][..Min(count, k)] == data[..Min(count, k)];
  }

  /** What is left of b after r. */
  ghost predicate StopsAt(table: seq<Code>, b: bits, count: nat, r: seq<byte>)
    requires |table| == SYMBOLS
  {
    && Encoded(table, r) <= b
    && (|r| < count ==> NoWord(table, b[|Encoded(table, r)|..]))
  }

  lemma StopsAtFirst(table: seq<Code>, b: bits, count: nat)
    requires WellFormed(table) && PrefixFree(table) && NextSymbol(table, b, 1) == None
    ensures StopsAt(table, b, count, [])
  {
    assert b[0..] == b;
    forall s | 0 <= s < |table|
      ensures !(Word(table, s) <= b)
    {
      ReadIffPrefix(table, b, s);
    }
  }

  lemma StopsAtLater(table: seq<Code>, b: bits, next: bits, count: nat, s: byte, r: seq<byte>)
    requires |table| == SYMBOLS && b == Word(table, s) + next && count > 0
    requires StopsAt(table, next, count - 1, r)
    ensures StopsAt(table, b, count, [s] + r)
  {
    assert ([s] + r)[1..] == r;
    assert b[|Encoded(table, [s] + r)|..] == next[|Encoded(table, r)|..];
  }

  /** Whatever the bits, what is decoded are code words from their front, and decoding stops short only where no
      code word follows. */
  lemma {:induction false} DecodeAnything(table: seq<Code>, b: bits, count: nat)
    requires WellFormed(table) && PrefixFree(table)
    ensures StopsAt(table, b, count, Decoded(table, b, count))
  {
    var first := NextSymbol(table, b, 1);
    if count == 0 {
    } else if first == None {
      StopsAtFirst(table, b, count);
    } else {
      DecodeAnything(table, b[table[first.value].length..], count - 1);
      AnythingOneMore(table, b, count, first.value);
    }
  }

  lemma AnythingOneMore(table: seq<Code>, b: bits, count: nat, s: byte)
    requires WellFormed(table) && PrefixFree(table) && count > 0 && NextSymbol(table, b, 1) == Some(s)
    requires var next := b[table[s].length..]; StopsAt(table, next, count - 1, Decoded(table, next, count - 1))
    ensures StopsAt(table, b, count, Decoded(table, b, count))
  {
    hide StopsAt, NextSymbol, PrefixFree, Encoded;
    ReadIsPrefix(table, b, 1);
    var next := b[table[s].length..];
    var rest := Decoded(table, next, count - 1);
    StopsAtLater(table, b, next, count, s, rest);
    assert Decoded(table, b, count) == [s] + rest;
  }

  lemma CompleteHasWord(table: seq<Code>, b: bits)
    requires Complete(table) && |b| >= MAX_LENGTH
    ensures !NoWord(table, b)
  {
  }

  /** With a complete table that is only where fewer bits are left than the longest code has. */
  lemma DecodeStopsAtEnd(table: seq<Code>, b: bits, count: nat)
    requires WellFormed(table) && PrefixFree(table) && Complete(table)
    requires |Decoded(table, b, count)| < count
    ensures var r := Decoded(table, b, count);
            Encoded(table, r) <= b && |b| < |Encoded(table, r)| + MAX_LENGTH
  {
    DecodeAnything(table, b, count);
    var rest := b[|Encoded(table, Decoded(table, b, count))|..];
    if |rest| >= MAX_LENGTH {
      CompleteHasWord(table, rest);
    }
  }
}
