/** Consistent Overhead Byte Stuffing: what encoding and decoding mean. A frame is cut at its zeros, and after 254 bytes
    if there is none before. Each piece is written as its length plus one and then its bytes, so that a reader learns
    from the length byte where the next one is. The zero that ended a piece is not written: the reader puts it back,
    except behind the last piece and behind one of 254 bytes, which ended without one. */
module Cobs {
  import opened Bits
  import opened Seqs
  import opened Options

  const FULL: nat := 254  // data bytes of a full block

  ghost predicate NoZero(s: seq<byte>) {
    forall i :: 0 <= i < |s| ==> s[i] != 0
  }

  /** How many bytes at the front of s go in one block: up to the first zero, and no more than a full block. */
  function Span(s: seq<byte>, limit: nat): (n: nat)
    ensures n <= |s| && n <= limit
    ensures NoZero(s[..n])
    ensures n < |s| && n < limit ==> s[n] == 0
  {
    if s == [] || limit == 0 || s[0] == 0 then 0 else 1 + Span(s[1..], limit - 1)
  }

  function Block(data: seq<byte>): (r: seq<byte>)
    requires |data| <= FULL
  {
    [(|data| + 1) as byte] + data
  }

  function Encoded(s: seq<byte>): (r: seq<byte>)
    decreases |s|
  {
    var n := Span(s, FULL);
    if n == |s| then Block(s)
    else if n == FULL then Block(s[..n]) + Encoded(s[n..])
    else Block(s[..n]) + Encoded(s[n + 1..])
  }

  /** Whether the last block of the encoding is a full one. */
  ghost predicate EndsFull(s: seq<byte>)
    decreases |s|
  {
    var n := Span(s, FULL);
    if n == |s| then n == FULL
    else if n == FULL then EndsFull(s[n..])
    else EndsFull(s[n + 1..])
  }

  /** PIF_COBS_MAX_ENCODED. */
  function MaxEncoded(length: nat): nat {
    length + length / 254 + 1
  }

  function Join(front: seq<byte>, rest: Option<seq<byte>>): (r: Option<seq<byte>>)
    ensures r.Some? <==> rest.Some?
  {
    match rest
    case None => None
    case Some(d) => Some(front + d)
  }

  /** The zero a block stands for, unless it is the last or a full one. */
  function Separator(code: byte, rest: seq<byte>): seq<byte> {
    if code < 0xFF && rest != [] then [0] else []
  }

  /** The frame of an encoded frame, or None for a broken one. */
  function Decoded(s: seq<byte>): Option<seq<byte>>
    decreases |s|
  {
    if s == [] then Some([])
    else if s[0] == 0 || s[0] > |s| || 0 in s[1..s[0]] then None
    else
      var rest := s[s[0]..];
      Join(s[1..s[0]] + Separator(s[0], rest), Decoded(rest))
  }

  // ---------------------------------------------------------------- properties of the encoding

  lemma NotIn(s: seq<byte>)
    requires NoZero(s)
    ensures 0 !in s
  {
  }

  /** Decoding a block and then the rest. */
  lemma DecodeBlock(data: seq<byte>, rest: seq<byte>)
    requires |data| <= FULL && NoZero(data)
    ensures var code := (|data| + 1) as byte;
            Decoded(Block(data) + rest) == Join(data + Separator(code, rest), Decoded(rest))
  {
    var s := Block(data) + rest;
    assert s[1..s[0]] == data && s[s[0]..] == rest;
    NotIn(data);
  }

  /** Decoding a full block, or the last one: it stands for its data alone. */
  lemma DecodeBare(data: seq<byte>, rest: seq<byte>)
    requires |data| <= FULL && NoZero(data) && (|data| == FULL || rest == [])
    ensures Decoded(Block(data) + rest) == Join(data, Decoded(rest))
  {
    DecodeBlock(data, rest);
    Units(data);
  }

  lemma JoinSome(front: seq<byte>, rest: seq<byte>, whole: seq<byte>)
    requires front + rest == whole
    ensures Join(front, Some(rest)) == Some(whole)
  {
  }

  lemma DecodeLast(data: seq<byte>)
    requires |data| <= FULL && NoZero(data)
    ensures Decoded(Block(data)) == Some(data)
  {
    DecodeBare(data, []);
    Units(Block(data));
    Units(data);
    JoinSome(data, [], data);
  }

  lemma DecodeFull(data: seq<byte>, enc: seq<byte>, rest: seq<byte>)
    requires |data| == FULL && NoZero(data) && Decoded(enc) == Some(rest)
    ensures Decoded(Block(data) + enc) == Some(data + rest)
  {
    DecodeBare(data, enc);
    JoinSome(data, rest, data + rest);
  }

  lemma DecodeShort(data: seq<byte>, enc: seq<byte>, rest: seq<byte>)
    requires |data| < FULL && NoZero(data) && enc != [] && Decoded(enc) == Some(rest)
    ensures Decoded(Block(data) + enc) == Some(data + [0] + rest)
  {
    DecodeBlock(data, enc);
    JoinSome(data + [0], rest, data + [0] + rest);
  }

  /** The round trip, for every frame: empty, with zeros anywhere, full blocks at its end or not. */
  lemma {:induction false} DecodeEncoded(s: seq<byte>)
    ensures Decoded(Encoded(s)) == Some(s)
    decreases |s|
  {
    var n := Span(s, FULL);
    if n == |s| {
      Units(s);
      DecodeLast(s);
    } else if n == FULL {
      var rest := s[n..];
      DecodeEncoded(rest);
      DecodeFull(s[..n], Encoded(rest), rest);
      SplitAt(s, n);
    } else {
      var rest := s[n + 1..];
      DecodeEncoded(rest);
      EncodedNoZero(rest);
      DecodeShort(s[..n], Encoded(rest), rest);
      TakeNext(s, n);
      SplitAt(s, n + 1);
    }
  }

  /** No zero byte, so a zero can delimit the frames. */
  lemma {:induction false} EncodedNoZero(s: seq<byte>)
    ensures NoZero(Encoded(s)) && Encoded(s) != []
    decreases |s|
  {
    var n := Span(s, FULL);
    if n == |s| {
      assert s[..n] == s;
    } else if n == FULL {
      EncodedNoZero(s[n..]);
    } else {
      EncodedNoZero(s[n + 1..]);
    }
  }

  /** The overhead is one byte, and at most one more for every 254 bytes; a full block at the end saves one. */
  lemma {:induction false} EncodedLength(s: seq<byte>)
    ensures |s| + 1 <= |Encoded(s)| <= MaxEncoded(|s|)
    ensures EndsFull(s) ==> |Encoded(s)| < MaxEncoded(|s|)
    decreases |s|
  {
    var n := Span(s, FULL);
    if n == |s| {
    } else if n == FULL {
      EncodedLength(s[n..]);
    } else {
      EncodedLength(s[n + 1..]);
    }
  }

  /** Different frames have different encodings. */
  lemma EncodedInjective(s: seq<byte>, t: seq<byte>)
    requires Encoded(s) == Encoded(t)
    ensures s == t
  {
    DecodeEncoded(s);
    DecodeEncoded(t);
  }
}
