/** The byte by byte COBS decoder of source/codec/pif_encoding.c. Between two zeros it must come to the same result
    as decoding the bytes between them at once; over a stream that means that it finds every frame again after any
    garbage. */
module CobsStream {
  import opened Bits
  import opened Options
  import opened Cobs
  import opened CobsCodec

  const MORE: int := -1
  const ERROR: int := -2

  /** The decoder without its buffer limit: bytes decoded, code of the block, and data bytes left in it. */
  datatype Scan = Scan(out: seq<byte>, code: byte, remain: nat)

  const IDLE := Scan([], 0, 0)

  /** The zero that the block before a new one stood for. */
  function Gap(code: byte): (r: seq<byte>)
    ensures |r| <= 1
  {
    if 0 < code < 0xFF then [0] else []
  }

  function Feed(st: Scan, x: byte): Scan
    requires x != 0
  {
    if st.remain > 0 then Scan(st.out + [x], st.code, st.remain - 1)
    else Scan(st.out + Gap(st.code), x, x as int - 1)
  }

  function FeedAll(st: Scan, s: seq<byte>): Scan
    requires NoZero(s)
    decreases |s|
  {
    if s == [] then st else FeedAll(Feed(st, s[0]), s[1..])
  }

  // ---------------------------------------------------------------- one segment

  lemma {:induction false} FeedOneMore(st: Scan, s: seq<byte>, x: byte)
    requires NoZero(s) && x != 0
    ensures FeedAll(st, s + [x]) == Feed(FeedAll(st, s), x)
    decreases |s|
  {
    if s == [] {
      assert [] + [x] == [x] && [x][1..] == [];
    } else {
      assert (s + [x])[1..] == s[1..] + [x];
      FeedOneMore(Feed(st, s[0]), s[1..], x);
    }
  }

  /** Data bytes of a block go to the output as they are. */
  lemma {:induction false} FeedData(st: Scan, data: seq<byte>, rest: seq<byte>)
    requires NoZero(data) && NoZero(rest) && |data| <= st.remain
    ensures FeedAll(st, data + rest) == FeedAll(Scan(st.out + data, st.code, st.remain - |data|), rest)
    decreases |data|
  {
    if data == [] {
      assert data + rest == rest && st.out + data == st.out;
    } else {
      assert (data + rest)[1..] == data[1..] + rest;
      FeedData(Feed(st, data[0]), data[1..], rest);
      assert st.out + [data[0]] + data[1..] == st.out + data;
    }
  }

  lemma NoZeroPart(s: seq<byte>, from: nat, to: nat)
    requires NoZero(s) && from <= to <= |s|
    ensures NoZero(s[from..to]) && 0 !in s[from..to]
  {
  }

  lemma GapIsSeparator(code: byte, rest: seq<byte>)
    requires code > 0 && rest != []
    ensures Gap(code) == Separator(code, rest)
  {
  }

  /** The scan of a whole block and what follows it. */
  lemma FeedBlock(st: Scan, s: seq<byte>, data: seq<byte>, rest: seq<byte>)
    requires NoZero(s) && s != [] && st.remain == 0 && |data| == s[0] as int - 1
    requires NoZero(data) && NoZero(rest) && s[1..] == data + rest
    ensures FeedAll(st, s) == FeedAll(Scan(st.out + Gap(st.code) + data, s[0], 0), rest)
  {
    FeedData(Feed(st, s[0]), data, rest);
  }

  /** A block cut off by the end of the segment. */
  lemma FeedPart(st: Scan, s: seq<byte>)
    requires NoZero(s) && s != [] && st.remain == 0 && s[0] as int > |s|
    ensures FeedAll(st, s).remain > 0
  {
    assert s[1..] + [] == s[1..];
    FeedData(Feed(st, s[0]), s[1..], []);
  }

  lemma Regroup(a: seq<byte>, b: seq<byte>, c: seq<byte>, d: seq<byte>)
    ensures a + b + c + d == a + (b + c + d)
  {
  }

  /** Scanning a segment from the start of a block: it ends at the end of a block exactly if the batch decoder
      takes the segment, and with the same bytes. */
  lemma {:induction false} ScanIsDecode(st: Scan, s: seq<byte>)
    requires NoZero(s) && s != [] && st.remain == 0
    ensures FeedAll(st, s).remain == 0 <==> Decoded(s).Some?
    ensures Decoded(s).Some? ==> FeedAll(st, s).out == st.out + Gap(st.code) + Decoded(s).value
    decreases |s|
  {
    var n := s[0] as int;
    if n > |s| {
      FeedPart(st, s);
    } else {
      NoZeroPart(s, 1, n);
      var data, rest := s[1..n], s[n..];
      var next := Scan(st.out + Gap(st.code) + data, s[0], 0);
      NoZeroPart(s, n, |s|);
      FeedBlock(st, s, data, rest);
      if rest == [] {
        assert data + [] == data;
      } else {
        ScanIsDecode(next, rest);
        GapIsSeparator(s[0], rest);
        if Decoded(rest).Some? {
          var d, gap := Decoded(rest).value, Gap(s[0]);
          Regroup(st.out + Gap(st.code), data, gap, d);
        }
      }
    }
  }

  lemma SegmentScan(s: seq<byte>)
    requires NoZero(s) && s != []
    ensures FeedAll(IDLE, s).remain == 0 <==> Decoded(s).Some?
    ensures Decoded(s).Some? ==> FeedAll(IDLE, s).out == Decoded(s).value
  {
    ScanIsDecode(IDLE, s);
    assert IDLE.out + Gap(IDLE.code) == [];
    if Decoded(s).Some? {
      assert [] + Decoded(s).value == Decoded(s).value;
    }
  }

  /** What a segment between two zeros decodes to. */
  function SegmentFrame(segment: seq<byte>, size: nat): Option<seq<byte>> {
    if Accepted(Decoded(segment), size) then Decoded(segment) else None
  }

  /** What the decoder answers to the zero that ends a segment. */
  function SegmentResult(segment: seq<byte>, size: nat): int {
    if segment == [] then MORE
    else match SegmentFrame(segment, size)
      case None => ERROR
      case Some(frame) => |frame|
  }

  class CobsDecoder {
    const buffer: array<byte>
    const size: nat
    var length: nat    // bytes decoded in the current frame
    var code: byte     // length byte of the piece being read, 0 between frames
    var remain: nat    // bytes of that piece still to come
    var error: bool
    ghost var segment: seq<byte>  // the bytes put since the last zero or reset

    ghost predicate Valid()
      reads this, buffer
    {
      && size <= buffer.Length && NoZero(segment)
      && (code == 0 <==> segment == [])
      && length <= size
      && var scan := FeedAll(IDLE, segment);
         if error then segment != [] && |scan.out| > size
         else buffer[..length] == scan.out && code == scan.code && remain == scan.remain
    }

    constructor (buffer: array<byte>, size: nat)
      requires size <= buffer.Length
      ensures Valid() && this.buffer == buffer && this.size == size && segment == []
    {
      this.buffer := buffer;
      this.size := size;
      length, code, remain, error := 0, 0, 0, false;
      segment := [];
    }

    method Reset()
      requires size <= buffer.Length
      modifies this
      ensures Valid() && segment == []
    {
      length, code, remain, error := 0, 0, 0, false;
      segment := [];
      assert buffer[..0] == [];
    }

    method Append(data: byte)
      requires size <= buffer.Length && length <= size
      modifies `length, `error, buffer
      ensures length <= size && buffer[size..] == old(buffer[size..])
      ensures old(length) < size ==> error == old(error) && buffer[..length] == old(buffer[..length]) + [data]
      ensures old(length) == size ==> error && length == size
    {
      if length >= size {
        error := true;
        return;
      }
      ghost var before := buffer[..length];
      buffer[length] := data;
      length := length + 1;
      assert buffer[..length] == before + [data];
    }

    /** A zero ends the segment, and the answer is what decoding the segment on its own gives. */
    method Put(data: byte) returns (result: int)
      requires Valid()
      modifies this, buffer
      ensures Valid() && buffer[size..] == old(buffer[size..])
      ensures data != 0 ==> result == MORE && segment == old(segment) + [data]
      ensures data == 0 ==> segment == [] && result == SegmentResult(old(segment), size)
      ensures result >= 0 ==> result <= size && SegmentFrame(old(segment), size) == Some(buffer[..result])
    {
      if data == 0 {
        if segment != [] {
          SegmentScan(segment);
        }
        if code == 0 {
          result := MORE;
        } else if error || remain > 0 {
          result := ERROR;
        } else {
          result := length;
        }
        Reset();
        return;
      }
      result := MORE;
      ghost var scan := FeedAll(IDLE, segment);
      FeedOneMore(IDLE, segment, data);
      segment := segment + [data];
      if error {
        return;
      }
      if remain > 0 {
        Append(data);
        remain := remain - 1;
      } else {
        if 0 < code < 0xFF {
          Append(0);
        } else {
          assert scan.out + [] == scan.out;
        }
        code := data;
        remain := data as int - 1;
      }
    }
  }
}
