/** source/codec/pif_huffman.c: the encoder that packs codes into a caller's buffer and can be fed in pieces, and
    the decoder that reads them back bit by bit. */
module HuffmanCodec {
  import opened Numbers
  import opened Seqs
  import opened Bits
  import opened Options
  import opened LimitedLengths
  import opened HuffmanTable
  import opened HuffmanCode

  /** The bytes hold the bits sent, and zeros after them. */
  ghost predicate Padded(data: seq<byte>, sent: bits) {
    && |sent| <= 8 * |data|
    && BytesBits(data) == sent + Zeros(8 * |data| - |sent|)
  }

  lemma OpenByte(data: seq<byte>, sent: bits)
    requires Padded(data, sent) && |sent| == 8 * |data|
    ensures Padded(data + [0], sent)
  {
    BytesBitsAppend(data, 0);
    ZeroBits(8);
  }

  /** The last byte after one more bit, which is still zero in it, is set to b. */
  function PackBit(x: byte, pos: nat, b: bool): byte
    requires pos < 8
  {
    assert Pow2(8) == 256 by { Pow2Of8(); }
    OrBitFits(x, 8, 7 - pos);
    if b then OrBit(x, 7 - pos) else x
  }

  lemma PackBitPads(data: seq<byte>, sent: bits, x: byte, b: bool)
    requires Padded(data + [x], sent) && 8 * |data| <= |sent| < 8 * |data| + 8
    ensures Padded(data + [PackBit(x, |sent| - 8 * |data|, b)], sent + [b])
  {
    var pos := |sent| - 8 * |data|;
    var y := PackBit(x, pos, b);
    BytesBitsAppend(data, x);
    BytesBitsAppend(data, y);
    OrBitSets(x, 8, 7 - pos, pos);
    var old8, new8 := CodeBits(x, 8), CodeBits(y, 8);
    assert BytesBits(data + [x])[8 * |data|..] == old8;
    assert new8 == old8[pos := b] by {
      assert old8[pos] == BytesBits(data + [x])[|sent|];
    }
    assert BytesBits(data + [y]) == BytesBits(data + [x])[|sent| := b];
  }

  lemma NextPos(count: nat, pos: nat)
    requires pos == count % 8
    ensures (pos + 1) % 8 == (count + 1) % 8
  {
  }

  class Encoder {
    const table: seq<Code>
    const out: array<byte>
    const outSize: nat
    var bytes: nat       // bytes of the buffer in use
    var bitPos: nat      // where in the last of them the next bit goes, 0 if that takes a new byte
    var overflow: bool
    ghost var fed: seq<byte>  // all input so far
    ghost var sent: bits      // all bits written so far

    /** The bytes written hold the bits sent. */
    ghost predicate Packed()
      reads this, out
    {
      && |table| == SYMBOLS && outSize <= out.Length
      && bytes <= outSize
      && bitPos == |sent| % 8 && 8 * bytes < |sent| + 8
      && Padded(out[..bytes], sent)
    }

    /** The bits sent are the codes of all input, as far as they fit. */
    ghost predicate Valid()
      reads this, out
    {
      && Packed()
      && sent <= Encoded(table, fed)
      && (!overflow ==> sent == Encoded(table, fed))
      && (overflow ==> 8 * outSize == |sent| < |Encoded(table, fed)|)
    }

    constructor (table: seq<Code>, out: array<byte>, outSize: nat)
      requires |table| == SYMBOLS && outSize <= out.Length
      ensures Valid() && this.table == table && this.out == out && this.outSize == outSize
      ensures fed == [] && !overflow && bytes == 0
    {
      this.table := table;
      this.out := out;
      this.outSize := outSize;
      bytes := 0;
      bitPos := 0;
      overflow := false;
      fed, sent := [], [];
    }

    /** Opens a new, zeroed byte. */
    method Open()
      requires Packed() && bitPos == 0 && bytes < outSize
      modifies `bytes, out
      ensures bytes == old(bytes) + 1 && bytes <= outSize && 8 * bytes == |sent| + 8 && Padded(out[..bytes], sent)
      ensures out[outSize..] == old(out[outSize..])
    {
      OpenByte(out[..bytes], sent);
      out[bytes] := 0;
      assert out[..bytes + 1] == old(out[..bytes]) + [0];
      bytes := bytes + 1;
    }

    /** Writes the next bit into the last byte. */
    method SetBit(b: bool)
      requires |table| == SYMBOLS && 0 < bytes <= outSize <= out.Length && Padded(out[..bytes], sent)
      requires 8 * bytes - 8 <= |sent| < 8 * bytes && bitPos == |sent| % 8
      modifies out
      ensures Padded(out[..bytes], sent + [b])
      ensures out[outSize..] == old(out[outSize..])
    {
      ghost var before := out[..bytes - 1];
      assert out[..bytes] == before + [out[bytes - 1]];
      PackBitPads(before, sent, out[bytes - 1], b);
      assert bitPos == |sent| - 8 * (bytes - 1);
      if b {
        out[bytes - 1] := PackBit(out[bytes - 1], bitPos, true);
      }
      assert out[..bytes] == before + [out[bytes - 1]];
    }

    /** One turn of the inner loop of pifHuffman_Encode. */
    method Put(b: bool) returns (ok: bool)
      requires Packed() && !overflow
      modifies `bytes, `bitPos, `overflow, `sent, out
      ensures Packed() && ok == !overflow
      ensures out[outSize..] == old(out[outSize..])
      ensures ok ==> sent == old(sent) + [b]
      ensures !ok ==> sent == old(sent) && |sent| == 8 * outSize
    {
      if bitPos == 0 {
        if bytes >= outSize {
          overflow := true;
          return false;
        }
        Open();
      }
      SetBit(b);
      NextPos(|sent|, bitPos);
      sent := sent + [b];
      bitPos := (bitPos + 1) % 8;
      ok := true;
    }

    /** The inner loop: the code of one byte, or as much of it as fits. */
    method EncodeByte(x: byte) returns (ok: bool)
      requires Packed() && !overflow
      modifies `bytes, `bitPos, `overflow, `sent, out
      ensures Packed() && ok == !overflow
      ensures out[outSize..] == old(out[outSize..])
      ensures ok ==> sent == old(sent) + Word(table, x)
      ensures !ok ==> sent < old(sent) + Word(table, x) && |sent| == 8 * outSize
    {
      var code := table[x];
      ghost var word := Word(table, x);
      var bit: nat := code.length;
      assert word[..0] == [];
      while bit > 0
        invariant bit <= code.length && Packed() && !overflow
        invariant out[outSize..] == old(out[outSize..])
        invariant sent == old(sent) + word[..code.length - bit]
      {
        CodeBitAt(code.code, code.length, code.length - bit, bit - 1);
        assert word[..code.length - bit + 1] == word[..code.length - bit] + [word[code.length - bit]];
        ok := Put(BitOf(code.code, bit - 1));
        if !ok {
          return;
        }
        bit := bit - 1;
      }
      assert word[..code.length] == word;
      ok := true;
    }

    /** The answer says whether the codes of everything fed so far fit, and the buffer holds the bits of those
        codes, cut off at its end if they do not, however the input was split into calls. */
    method Encode(input: seq<byte>) returns (ok: bool)
      requires Valid()
      modifies this, out
      ensures Valid() && fed == old(fed) + input && ok == !overflow
      ensures out[outSize..] == old(out[outSize..])
    {
      ghost var all := fed + input;
      EncodedAppend(table, fed, input);
      if overflow {
        fed := all;
        return false;
      }
      assert fed + input[..0] == fed;
      for i := 0 to |input|
        invariant Packed() && !overflow && fed == old(fed) && out[outSize..] == old(out[outSize..])
        invariant sent == Encoded(table, fed + input[..i])
      {
        NextWord(table, fed, input, i);
        ok := EncodeByte(input[i]);
        if !ok {
          fed := all;
          return;
        }
      }
      assert input[..|input|] == input;
      fed := all;
      ok := true;
    }
  }

  lemma EncodedNext(table: seq<Code>, before: seq<byte>, x: byte)
    requires |table| == SYMBOLS
    ensures Encoded(table, before + [x]) == Encoded(table, before) + Word(table, x)
  {
    EncodedAppend(table, before, [x]);
    EncodedOne(table, x);
  }

  lemma EncodedPrefix(table: seq<Code>, data: seq<byte>, more: seq<byte>)
    requires |table| == SYMBOLS
    ensures Encoded(table, data) <= Encoded(table, data + more)
  {
    EncodedAppend(table, data, more);
  }

  lemma NextWord(table: seq<Code>, fed: seq<byte>, input: seq<byte>, i: nat)
    requires |table| == SYMBOLS && i < |input|
    ensures Encoded(table, fed + input[..i + 1]) == Encoded(table, fed + input[..i]) + Word(table, input[i])
    ensures Encoded(table, fed + input[..i + 1]) <= Encoded(table, fed + input)
  {
    TakeNext(input, i);
    Assoc(fed, input[..i], [input[i]]);
    EncodedNext(table, fed + input[..i], input[i]);
    SplitAt(input, i + 1);
    Assoc(fed, input[..i + 1], input[i + 1..]);
    EncodedPrefix(table, fed + input[..i + 1], input[i + 1..]);
  }

  /** The symbol search of pifHuffman_Decode. */
  method Lookup(table: seq<Code>, code: nat, length: nat) returns (symbol: nat)
    ensures symbol == Find(table, code, length, 0)
  {
    symbol := 0;
    while symbol < |table| && table[symbol] != Code(code, length)
      invariant symbol <= |table|
      invariant Find(table, code, length, symbol) == Find(table, code, length, 0)
    {
      symbol := symbol + 1;
    }
  }

  /** Codes of up to 16 bits never lose a bit in the uint16_t they are gathered in. */
  lemma ShortCode(b: bits)
    requires |b| <= MAX_LENGTH
    ensures Value(b) < 0x1_0000
  {
    CodeOfValue(b);
    Pow2Monotone(|b|, MAX_LENGTH);
    Pow2Of8();
    ShiftPow2(8, 8, 16);
    assert Shift(256, 4) == 4096 && Shift(256, 8) == 16 * Shift(256, 4);
  }

  lemma NoBits(b: bits)
    ensures Value(b[..0]) == 0
  {
  }

  /** Gathering one more bit. */
  lemma NextBit(b: bits, x: bool, code: nat, before: nat, length: nat)
    requires length == before + 1 <= MAX_LENGTH && length <= |b|
    requires code == Value(b[..before]) && b[before] == x
    ensures (2 * code + (if x then 1 else 0)) % 0x1_0000 == Value(b[..length])
  {
    TakeUpTo(b, before, length);
    ValueNext(b[..before], x);
    ShortCode(b[..length]);
  }

  /** Trying one length after another comes to the same symbol. */
  lemma TryLonger(table: seq<Code>, b: bits, length: nat, symbol: nat)
    requires 1 <= length <= MAX_LENGTH && length <= |b|
    requires symbol == Find(table, Value(b[..length]), length, 0)
    ensures symbol < |table| ==> NextSymbol(table, b, length) == Some(symbol) && table[symbol].length == length
    ensures symbol >= |table| ==> NextSymbol(table, b, length) == NextSymbol(table, b, length + 1)
  {
  }

  /** Reads one symbol from bit start on. None says that no code was found; next is the bit after those read. */
  method ReadSymbol(table: seq<Code>, input: seq<byte>, start: nat) returns (r: Option<nat>, next: nat)
    requires start <= 8 * |input|
    ensures r == NextSymbol(table, BytesBits(input)[start..], 1)
    ensures r.Some? ==> next == start + table[r.value].length
  {
    hide NextSymbol, Find, BytesBits, Value, BitOf;
    ghost var b := BytesBits(input)[start..];
    NoBits(b);
    ghost var goal := NextSymbol(table, b, 1);
    var code: nat := 0;
    var length: nat := 1;
    next := start;
    while length <= MAX_LENGTH
      invariant 1 <= length <= MAX_LENGTH + 1 && next == start + length - 1 <= 8 * |input|
      invariant code == Value(b[..length - 1])
      invariant NextSymbol(table, b, length) == goal
    {
      if next >= 8 * |input| {
        return None, next;
      }
      BytesBitsAt(input, next);
      NextBit(b, BitAt(input, next), code, length - 1, length);
      code := (2 * code + (if BitAt(input, next) then 1 else 0)) % 0x1_0000;
      next := next + 1;
      var symbol := Lookup(table, code, length);
      TryLonger(table, b, length, symbol);
      if symbol < |table| {
        return Some(symbol), next;
      }
      length := length + 1;
    }
    r := None;
  }

  /** What is decoded so far, and the left symbols still to be read from bit next on, are all there is. */
  ghost predicate Reading(table: seq<Code>, b: bits, all: seq<byte>, done: seq<byte>, next: nat, left: nat)
    requires |table| == SYMBOLS
  {
    next <= |b| && done + Decoded(table, b[next..], left) == all
  }

  lemma ReadingGoesOn(table: seq<Code>, b: bits, all: seq<byte>, done: seq<byte>, next: nat, left: nat, s: byte,
                      after: nat, fewer: nat)
    requires |table| == SYMBOLS && Reading(table, b, all, done, next, left) && left == fewer + 1
    requires NextSymbol(table, b[next..], 1) == Some(s) && after == next + table[s].length
    ensures Reading(table, b, all, done + [s], after, fewer)
  {
    hide NextSymbol;
    DropDrop(b, next, table[s].length, after);
    Assoc(done, [s], Decoded(table, b[after..], fewer));
  }

  lemma ReadingEnds(table: seq<Code>, b: bits, all: seq<byte>, done: seq<byte>, next: nat, left: nat)
    requires |table| == SYMBOLS && Reading(table, b, all, done, next, left)
    requires left == 0 || NextSymbol(table, b[next..], 1) == None
    ensures done == all
  {
    Units(done);
  }

  method Decode(table: seq<Code>, input: seq<byte>, out: array<byte>, outCount: nat) returns (decoded: nat)
    requires |table| == SYMBOLS && outCount <= out.Length
    modifies out
    ensures decoded <= outCount && out[..decoded] == Decoded(table, BytesBits(input), outCount)
    ensures forall k :: decoded <= k < out.Length ==> out[k] == old(out[k])
  {
    hide Decoded, BytesBits, NextSymbol;
    ghost var b := BytesBits(input);
    ghost var all := Decoded(table, b, outCount);
    ghost var done: seq<byte> := [];
    ghost var left := outCount;
    var bitIndex: nat := 0;
    decoded := 0;
    Units(b);
    Units(all);
    while decoded < outCount
      invariant decoded <= outCount && left == outCount - decoded && done == out[..decoded]
      invariant Reading(table, b, all, done, bitIndex, left)
      invariant forall k :: decoded <= k < out.Length ==> out[k] == old(out[k])
    {
      var symbol, next := ReadSymbol(table, input, bitIndex);
      if symbol == None {
        break;
      }
      ghost var fewer := left - 1;
      ReadingGoesOn(table, b, all, done, bitIndex, left, symbol.value, next, fewer);
      left := fewer;
      done := done + [symbol.value as byte];
      out[decoded] := symbol.value;
      decoded := decoded + 1;
      bitIndex := next;
    }
    ReadingEnds(table, b, all, done, bitIndex, left);
  }

  // ---------------------------------------------------------------- encoder and decoder together

  /** What the decoder makes of the encoder's buffer: everything fed, if it fit, and else exactly the longest
      prefix whose codes fit. The bits in the last byte beyond the codes do no harm. */
  lemma EncodeThenDecode(e: Encoder, count: nat)
    requires e.Valid() && WellFormed(e.table) && PrefixFree(e.table)
    ensures !e.overflow && count <= |e.fed| ==>
              Decoded(e.table, BytesBits(e.out[..e.bytes]), count) == e.fed[..count]
    ensures e.overflow ==>
              var n := Fitting(e.table, e.fed, 8 * e.outSize);
              Decoded(e.table, BytesBits(e.out[..e.outSize]), count) == e.fed[..Min(count, n)]
  {
    var written := BytesBits(e.out[..e.bytes]);
    var pad := Zeros(8 * e.bytes - |e.sent|);
    if !e.overflow {
      if count <= |e.fed| {
        var data, more := e.fed[..count], e.fed[count..];
        assert e.fed == data + more;
        EncodedAppend(e.table, data, more);
        assert written == Encoded(e.table, data) + (Encoded(e.table, more) + pad);
        DecodeEncoded(e.table, data, Encoded(e.table, more) + pad, count);
      }
    } else {
      assert e.bytes == e.outSize && pad == [];
      assert written == e.sent == Encoded(e.table, e.fed)[..8 * e.outSize];
      DecodeCutStream(e.table, e.fed, 8 * e.outSize, count);
    }
  }
}
