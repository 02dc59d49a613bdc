/** COBS in source/codec/pif_encoding.c: encoding a frame, and decoding a whole encoded frame, which may be done in
    place. */
module CobsCodec {
  import opened Bits
  import opened Options
  import opened Cobs

  // ---------------------------------------------------------------- the encoder's blocks

  lemma {:induction false} SpanOfBlock(block: seq<byte>, rest: seq<byte>, limit: nat)
    requires NoZero(block) && |block| <= limit
    requires |block| == limit || rest == [] || rest[0] == 0
    ensures Span(block + rest, limit) == |block|
  {
    if block == [] {
      assert block + rest == rest;
    } else {
      assert (block + rest)[1..] == block[1..] + rest;
      SpanOfBlock(block[1..], rest, limit - 1);
    }
  }

  lemma LastBlock(block: seq<byte>)
    requires NoZero(block) && |block| <= FULL
    ensures Encoded(block) == Block(block) && (EndsFull(block) <==> |block| == FULL)
  {
    SpanOfBlock(block, [], FULL);
    assert block + [] == block;
  }

  lemma FullBlock(block: seq<byte>, rest: seq<byte>)
    requires NoZero(block) && |block| == FULL && rest != []
    ensures Encoded(block + rest) == Block(block) + Encoded(rest)
    ensures EndsFull(block + rest) == EndsFull(rest)
  {
    SpanOfBlock(block, rest, FULL);
    assert (block + rest)[..FULL] == block && (block + rest)[FULL..] == rest;
  }

  lemma ZeroEndsBlock(block: seq<byte>, rest: seq<byte>)
    requires NoZero(block) && |block| < FULL
    ensures Encoded(block + [0] + rest) == Block(block) + Encoded(rest)
    ensures EndsFull(block + [0] + rest) == EndsFull(rest)
  {
    var s := block + [0] + rest;
    assert s == block + ([0] + rest);
    SpanOfBlock(block, [0] + rest, FULL);
    assert s[..|block|] == block && s[|block| + 1..] == rest;
  }

  // ---------------------------------------------------------------- encoding

  /** The encoder with a block open: what is written, and that block with the rest of the frame still to encode. */
  ghost predicate Open(src: seq<byte>, done: seq<byte>, block: seq<byte>, rest: seq<byte>) {
    && NoZero(block) && |block| < FULL
    && Encoded(src) == done + Encoded(block + rest)
    && EndsFull(src) == EndsFull(block + rest)
  }

  ghost predicate Finished(src: seq<byte>, done: seq<byte>) {
    Encoded(src) == done && EndsFull(src)
  }

  lemma TakeByte(src: seq<byte>, done: seq<byte>, block: seq<byte>, rest: seq<byte>)
    requires Open(src, done, block, rest) && rest != [] && rest[0] != 0 && |block| + 1 < FULL
    ensures Open(src, done, block + [rest[0]], rest[1..])
  {
    assert block + rest == block + [rest[0]] + rest[1..];
  }

  lemma CloseFull(src: seq<byte>, done: seq<byte>, block: seq<byte>, rest: seq<byte>)
    requires Open(src, done, block, rest) && rest != [] && rest[0] != 0 && |block| + 1 == FULL
    ensures var whole := block + [rest[0]];
            if |rest| > 1 then Open(src, done + Block(whole), [], rest[1..]) else Finished(src, done + Block(whole))
  {
    hide Encoded, EndsFull, Block;
    var whole := block + [rest[0]];
    assert block + rest == whole + rest[1..];
    if |rest| > 1 {
      FullBlock(whole, rest[1..]);
      assert [] + rest[1..] == rest[1..];
      assert done + (Block(whole) + Encoded(rest[1..])) == done + Block(whole) + Encoded(rest[1..]);
    } else {
      assert whole + rest[1..] == whole;
      LastBlock(whole);
    }
  }

  lemma CloseAtZero(src: seq<byte>, done: seq<byte>, block: seq<byte>, rest: seq<byte>)
    requires Open(src, done, block, rest) && rest != [] && rest[0] == 0
    ensures Open(src, done + Block(block), [], rest[1..])
  {
    hide Encoded, EndsFull, Block;
    ZeroEndsBlock(block, rest[1..]);
    assert block + rest == block + [0] + rest[1..];
    assert [] + rest[1..] == rest[1..];
    assert done + (Block(block) + Encoded(rest[1..])) == done + Block(block) + Encoded(rest[1..]);
  }

  lemma CloseLast(src: seq<byte>, done: seq<byte>, block: seq<byte>)
    requires Open(src, done, block, [])
    ensures Encoded(src) == done + Block(block) && !EndsFull(src)
  {
    assert block + [] == block;
    LastBlock(block);
  }

  /** The same, told by the buffer d and the positions the encoder keeps in it. */
  ghost predicate OpenAt(src: seq<byte>, i: nat, d: seq<byte>, size: nat, codePos: nat, pos: nat, code: nat) {
    && i <= |src| && codePos < pos <= size < |d| && pos == codePos + code
    && Open(src, d[..codePos], d[codePos + 1..pos], src[i..])
  }

  ghost predicate FinishedAt(src: seq<byte>, i: nat, d: seq<byte>, size: nat, codePos: nat, pos: nat, code: nat) {
    i == |src| && codePos == pos <= size < |d| && code == 1 && Finished(src, d[..pos])
  }

  /** Every byte still to encode takes at least one more. */
  lemma StillToWrite(src: seq<byte>, i: nat, d: seq<byte>, size: nat, codePos: nat, pos: nat, code: nat)
    requires OpenAt(src, i, d, size, codePos, pos, code)
    ensures |Encoded(src)| >= pos + |src| - i
  {
    EncodedLength(d[codePos + 1..pos] + src[i..]);
  }

  lemma StartOpen(src: seq<byte>, d: seq<byte>, size: nat)
    requires 1 <= size < |d|
    ensures OpenAt(src, 0, d, size, 0, 1, 1)
  {
    assert d[..0] == [] && d[1..1] == [];
    assert [] + src[0..] == src;
    assert [] + Encoded(src) == Encoded(src);
  }

  lemma StoreByte(src: seq<byte>, i: nat, d: seq<byte>, size: nat, codePos: nat, pos: nat, code: nat)
    requires OpenAt(src, i, d, size, codePos, pos, code) && i < |src| && src[i] != 0 && pos < size && code + 1 < 0xFF
    ensures OpenAt(src, i + 1, d[pos := src[i]], size, codePos, pos + 1, code + 1)
  {
    var e, block := d[pos := src[i]], d[codePos + 1..pos];
    TakeByte(src, d[..codePos], block, src[i..]);
    assert e[..codePos] == d[..codePos] && e[codePos + 1..pos + 1] == block + [src[i]];
    assert src[i..][1..] == src[i + 1..];
  }

  lemma StoreLastOfFull(src: seq<byte>, i: nat, d: seq<byte>, size: nat, codePos: nat, pos: nat, code: nat)
    requires OpenAt(src, i, d, size, codePos, pos, code) && i < |src| && src[i] != 0 && pos < size && code + 1 == 0xFF
    ensures var e := d[pos := src[i]][codePos := 0xFF];
            && (i + 1 < |src| && pos + 1 < size ==> OpenAt(src, i + 1, e, size, pos + 1, pos + 2, 1))
            && (i + 1 == |src| ==> FinishedAt(src, i + 1, e, size, pos + 1, pos + 1, 1))
  {
    var e, block := d[pos := src[i]][codePos := 0xFF], d[codePos + 1..pos];
    CloseFull(src, d[..codePos], block, src[i..]);
    assert src[i..][1..] == src[i + 1..];
    assert e[..pos + 1] == d[..codePos] + Block(block + [src[i]]);
    if pos + 1 < size {
      assert e[pos + 2..pos + 2] == [];
    }
  }

  lemma CloseBlock(src: seq<byte>, i: nat, d: seq<byte>, size: nat, codePos: nat, pos: nat, code: nat)
    requires OpenAt(src, i, d, size, codePos, pos, code) && i < |src| && src[i] == 0 && pos < size && code < 0xFF
    ensures OpenAt(src, i + 1, d[codePos := code as byte], size, pos, pos + 1, 1)
  {
    var e, block := d[codePos := code as byte], d[codePos + 1..pos];
    CloseAtZero(src, d[..codePos], block, src[i..]);
    assert src[i..][1..] == src[i + 1..];
    assert e[..pos] == d[..codePos] + Block(block);
    assert e[pos + 1..pos + 1] == [];
  }

  lemma CloseAtEnd(src: seq<byte>, d: seq<byte>, size: nat, codePos: nat, pos: nat, code: nat)
    requires OpenAt(src, |src|, d, size, codePos, pos, code)
    ensures code < 0x100 && d[codePos := code as byte][..pos] == Encoded(src) && !EndsFull(src)
  {
    assert src[|src|..] == [];
    var block := d[codePos + 1..pos];
    CloseLast(src, d[..codePos], block);
    WriteCode(d, codePos, pos, code as byte);
  }

  lemma WriteCode(d: seq<byte>, codePos: nat, pos: nat, code: byte)
    requires codePos < pos <= |d| && code > 0
    requires code as int == pos - codePos
    ensures |d[codePos + 1..pos]| <= FULL
    ensures d[codePos := code][..pos] == d[..codePos] + Block(d[codePos + 1..pos])
  {
  }

  /** The destination as the source declares it is dst[..size]; the byte after it is in the model so that what
      happens to it can be told. It is written exactly if the frame ends in a full block whose encoding fills the
      destination to its last byte: the code of the empty block that would follow goes there. */
  ghost predicate WritesPast(src: seq<byte>, size: nat) {
    EndsFull(src) && |Encoded(src)| == size
  }

  /** One turn of the encoding loop. */
  method EncodeByte(src: seq<byte>, i: nat, dst: array<byte>, size: nat, codePos0: nat, pos0: nat, code0: nat)
      returns (ok: bool, codePos: nat, pos: nat, code: nat)
    requires i < |src| && OpenAt(src, i, dst[..], size, codePos0, pos0, code0) && code0 < 0xFF
    modifies dst
    ensures dst[size..] == old(dst[size..])
    ensures !ok ==> |Encoded(src)| > size
    ensures ok && codePos < pos ==> OpenAt(src, i + 1, dst[..], size, codePos, pos, code) && code < 0xFF
    ensures ok && codePos >= pos ==> FinishedAt(src, i + 1, dst[..], size, codePos, pos, code)
  {
    codePos, pos, code := codePos0, pos0, code0;
    ghost var d := dst[..];
    StillToWrite(src, i, d, size, codePos, pos, code);
    if src[i] != 0 {
      if pos >= size {
        return false, codePos, pos, code;
      }
      dst[pos] := src[i];
      if code + 1 < 0xFF {
        StoreByte(src, i, d, size, codePos, pos, code);
      } else {
        StoreLastOfFull(src, i, d, size, codePos, pos, code);
      }
      pos := pos + 1;
      code := code + 1;
    } else if pos < size {
      CloseBlock(src, i, d, size, codePos, pos, code);
    }
    if src[i] == 0 || code == 0xFF {
      dst[codePos] := code;
      code := 1;
      codePos := pos;
      if src[i] == 0 || i + 1 < |src| {
        if pos >= size {
          return false, codePos, pos, code;
        }
        pos := pos + 1;
      }
    }
    ok := true;
  }

  method CobsEncode(src: seq<byte>, dst: array<byte>, size: nat) returns (r: nat)
    requires size < dst.Length
    modifies dst
    ensures r == if |Encoded(src)| <= size then |Encoded(src)| else 0
    ensures r > 0 ==> dst[..r] == Encoded(src)
    ensures dst[size..] == if WritesPast(src, size) then old(dst[size..])[0 := 1] else old(dst[size..])
  {
    var codePos: nat, pos: nat, code: nat := 0, 1, 1;
    EncodedLength(src);
    if size == 0 {
      return 0;
    }
    StartOpen(src, dst[..], size);
    for i := 0 to |src|
      invariant code < 0xFF && dst[size..] == old(dst[size..])
      invariant codePos < pos ==> OpenAt(src, i, dst[..], size, codePos, pos, code)
      invariant codePos >= pos ==> FinishedAt(src, i, dst[..], size, codePos, pos, code)
    {
      var ok;
      ok, codePos, pos, code := EncodeByte(src, i, dst, size, codePos, pos, code);
      if !ok {
        return 0;
      }
    }
    if codePos < pos {
      CloseAtEnd(src, dst[..], size, codePos, pos, code);
    }
    dst[codePos] := code;
    r := pos;
  }

  /** PIF_COBS_MAX_ENCODED is always enough: then the encoding fits, and nothing is written past it. */
  lemma MaxEncodedIsEnough(src: seq<byte>, size: nat)
    requires size >= MaxEncoded(|src|)
    ensures |Encoded(src)| <= size && !WritesPast(src, size)
  {
    EncodedLength(src);
  }

  /** But a destination of just the length of the encoding is not: 254 bytes without a zero, encoded in 255. */
  lemma ExactSizeIsNotEnough() returns (src: seq<byte>)
    ensures |src| == 254 && |Encoded(src)| == 255 && WritesPast(src, 255)
  {
    src := seq(254, _ => 1);
    LastBlock(src);
  }

  // ---------------------------------------------------------------- decoding

  /** The decoder at the front of a block: what is decoded, and that the rest goes on from there. */
  ghost predicate AtBlock(whole: seq<byte>, done: seq<byte>, rest: seq<byte>) {
    Decoded(whole) == Join(done, Decoded(rest))
  }

  /** The decoder inside a block: data of it are still to be copied, and tail comes after it. */
  ghost predicate InBlock(whole: seq<byte>, done: seq<byte>, code: byte, data: seq<byte>, tail: seq<byte>) {
    if NoZero(data) then Decoded(whole) == Join(done + data + Separator(code, tail), Decoded(tail))
    else Decoded(whole) == None
  }

  lemma JoinJoin(a: seq<byte>, b: seq<byte>, r: Option<seq<byte>>)
    ensures Join(a, Join(b, r)) == Join(a + b, r)
  {
    if r.Some? {
      assert a + (b + r.value) == a + b + r.value;
    }
  }

  lemma NoZeroIff(s: seq<byte>)
    ensures NoZero(s) <==> 0 !in s
  {
  }

  lemma AtStart(whole: seq<byte>)
    ensures AtBlock(whole, [], whole)
  {
    if Decoded(whole).Some? {
      assert [] + Decoded(whole).value == Decoded(whole).value;
    }
  }

  lemma AtEnd(whole: seq<byte>, done: seq<byte>)
    requires AtBlock(whole, done, [])
    ensures Decoded(whole) == Some(done)
  {
    assert done + [] == done;
  }

  lemma EnterBlock(whole: seq<byte>, done: seq<byte>, rest: seq<byte>)
    requires AtBlock(whole, done, rest) && rest != []
    ensures rest[0] == 0 || rest[0] > |rest| ==> Decoded(whole) == None
    ensures 0 < rest[0] <= |rest| ==> InBlock(whole, done, rest[0], rest[1..rest[0]], rest[rest[0]..])
  {
    if 0 < rest[0] <= |rest| {
      var data, tail := rest[1..rest[0]], rest[rest[0]..];
      NoZeroIff(data);
      if NoZero(data) {
        JoinJoin(done, data + Separator(rest[0], tail), Decoded(tail));
        assert done + (data + Separator(rest[0], tail)) == done + data + Separator(rest[0], tail);
      }
    }
  }

  lemma CopyByte(whole: seq<byte>, done: seq<byte>, code: byte, data: seq<byte>, tail: seq<byte>)
    requires InBlock(whole, done, code, data, tail) && data != []
    ensures data[0] == 0 ==> Decoded(whole) == None
    ensures data[0] != 0 ==> InBlock(whole, done + [data[0]], code, data[1..], tail)
  {
    assert data == [data[0]] + data[1..];
    assert done + [data[0]] + data[1..] == done + data;
  }

  lemma LeaveBlock(whole: seq<byte>, done: seq<byte>, code: byte, tail: seq<byte>)
    requires InBlock(whole, done, code, [], tail)
    ensures AtBlock(whole, done + Separator(code, tail), tail)
  {
    assert done + [] == done;
  }

  /** Only a frame longer than the destination makes the decoder run out of room. */
  lemma NoRoomInBlock(whole: seq<byte>, done: seq<byte>, code: byte, data: seq<byte>, tail: seq<byte>)
    requires InBlock(whole, done, code, data, tail)
    ensures Decoded(whole).Some? ==> |Decoded(whole).value| >= |done| + |data|
  {
  }

  lemma NoRoomAtBlock(whole: seq<byte>, done: seq<byte>, rest: seq<byte>)
    requires AtBlock(whole, done, rest)
    ensures Decoded(whole).Some? ==> |Decoded(whole).value| >= |done|
  {
  }

  /** The answer: the frame, if the bytes are one and it fits. */
  function Accepted(frame: Option<seq<byte>>, size: nat): bool {
    frame.Some? && |frame.value| <= size
  }

  /** The data bytes of one block. The write index stays behind the read index, so that dst may be src. */
  method CopyBlock(ghost whole: seq<byte>, src: array<byte>, dst: array<byte>, size: nat, code: byte,
                   start: nat, from: nat, ghost tail: seq<byte>) returns (ok: bool, i: nat, out: nat)
    requires code > 0 && start + code as int - 1 <= src.Length && from < start && size <= dst.Length && from <= size
    requires InBlock(whole, dst[..from], code, src[start..start + code as int - 1], tail)
    modifies dst
    ensures !ok ==> !Accepted(Decoded(whole), size)
    ensures ok ==> i == start + code as int - 1 && out < i && out <= size && InBlock(whole, dst[..out], code, [], tail)
    ensures src[start + code as int - 1..] == old(src[start + code as int - 1..])
    ensures dst[size..] == old(dst[size..])
  {
    i, out := start, from;
    ghost var end := start + code as int - 1;
    var n := 1;
    while n < code as int
      invariant 1 <= n <= code as int && i == start + n - 1 && out == from + n - 1 && out <= size
      invariant InBlock(whole, dst[..out], code, src[i..end], tail)
      invariant src[end..] == old(src[end..]) && dst[size..] == old(dst[size..])
    {
      ghost var done, data := dst[..out], src[i..end];
      CopyByte(whole, done, code, data, tail);
      NoRoomInBlock(whole, done, code, data, tail);
      if src[i] == 0 || out >= size {
        return false, i, out;
      }
      dst[out] := src[i];
      i, out := i + 1, out + 1;
      assert dst[..out] == done + [data[0]];
      assert src[i..end] == data[1..];
      n := n + 1;
    }
    assert src[i..end] == [];
    ok := true;
  }

  /** The zero the block stands for, if it stands for one. */
  method EndBlock(ghost whole: seq<byte>, src: array<byte>, length: nat, dst: array<byte>, size: nat, code: byte,
                  i: nat, from: nat, ghost tail: seq<byte>) returns (ok: bool, out: nat)
    requires from < i <= length <= src.Length && from <= size <= dst.Length && tail == src[i..length]
    requires InBlock(whole, dst[..from], code, [], tail)
    modifies dst
    ensures !ok ==> !Accepted(Decoded(whole), size)
    ensures ok ==> out <= i && out <= size && AtBlock(whole, dst[..out], tail)
    ensures src[i..length] == tail && dst[size..] == old(dst[size..])
  {
    ghost var done := dst[..from];
    LeaveBlock(whole, done, code, tail);
    out := from;
    if code < 0xFF && i < length {
      NoRoomAtBlock(whole, done + [0], tail);
      if out >= size {
        return false, out;
      }
      dst[out] := 0;
      out := out + 1;
      assert dst[..out] == done + [0];
    } else {
      assert done + [] == done;
    }
    ok := true;
  }

  /** One turn of the decoding loop. */
  method OneBlock(ghost whole: seq<byte>, src: array<byte>, length: nat, dst: array<byte>, size: nat,
                  at: nat, from: nat) returns (ok: bool, i: nat, out: nat)
    requires from <= at < length <= src.Length && from <= size <= dst.Length
    requires AtBlock(whole, dst[..from], src[at..length])
    modifies dst
    ensures !ok ==> !Accepted(Decoded(whole), size)
    ensures ok ==> at < i <= length && out <= i && out <= size && AtBlock(whole, dst[..out], src[i..length])
    ensures dst[size..] == old(dst[size..])
  {
    hide Decoded, AtBlock, InBlock;
    ghost var rest := src[at..length];
    EnterBlock(whole, dst[..from], rest);
    var code := src[at];
    i, out := at + 1, from;
    if code == 0 || code as int - 1 > length - i {
      return false, i, out;
    }
    ghost var tail := rest[code..];
    ghost var end := i + code as int - 1;
    assert src[i..end] == rest[1..code];
    ghost var last := src[end..];
    assert last[..length - end] == tail;
    ok, i, out := CopyBlock(whole, src, dst, size, code, i, out, tail);
    if ok {
      assert src[end..][..length - end] == src[end..length];
      ok, out := EndBlock(whole, src, length, dst, size, code, i, out, tail);
    }
  }

  /** None stands for FALSE, which leaves *p_length alone. Nothing is asked of src and dst being different arrays:
      the result is that of the bytes as they were. */
  method CobsDecode(src: array<byte>, length: nat, dst: array<byte>, size: nat) returns (r: Option<nat>)
    requires length <= src.Length && size <= dst.Length
    modifies dst
    ensures r.Some? <==> Accepted(Decoded(old(src[..length])), size)
    ensures r.Some? ==> r.value <= size && Decoded(old(src[..length])) == Some(dst[..r.value])
    ensures dst[size..] == old(dst[size..])
  {
    ghost var whole := src[..length];
    var i: nat, out: nat := 0, 0;
    AtStart(whole);
    assert dst[..0] == [] && src[0..length] == whole;
    while i < length
      invariant i <= length && out <= size && out <= i
      invariant AtBlock(whole, dst[..out], src[i..length])
      invariant dst[size..] == old(dst[size..])
    {
      var ok;
      ok, i, out := OneBlock(whole, src, length, dst, size, i, out);
      if !ok {
        return None;
      }
    }
    assert src[i..length] == [];
    AtEnd(whole, dst[..out]);
    r := Some(out);
  }
}
