/** Whole streams of COBS frames: what a receiver that puts every byte into the decoder gets out. */
module CobsWire {
  import opened Bits
  import opened Options
  import opened Cobs
  import opened CobsStream

  /** The stretches of a stream that a zero ends, in order. */
  function Segments(stream: seq<byte>): (r: seq<seq<byte>>)
    decreases |stream|
  {
    if 0 !in stream then [] else
    var k := FirstZero(stream);
    [stream[..k]] + Segments(stream[k + 1..])
  }

  function FirstZero(stream: seq<byte>): (k: nat)
    requires 0 in stream
    ensures k < |stream| && stream[k] == 0 && NoZero(stream[..k])
  {
    if stream[0] == 0 then 0 else 1 + FirstZero(stream[1..])
  }

  /** The bytes after the last zero. */
  function Tail(stream: seq<byte>): (r: seq<byte>)
    ensures NoZero(r)
    decreases |stream|
  {
    if 0 !in stream then stream else Tail(stream[FirstZero(stream) + 1..])
  }

  /** What the receiver of a stream is told: Some frame, or None for one that is broken or does not fit. */
  function Received(segments: seq<seq<byte>>, size: nat): seq<Option<seq<byte>>> {
    if segments == [] then []
    else if segments[0] == [] then Received(segments[1..], size)
    else [SegmentFrame(segments[0], size)] + Received(segments[1..], size)
  }

  /** Frames on the wire: each encoded, and a zero after it. */
  function Wire(frames: seq<seq<byte>>): seq<byte> {
    if frames == [] then [] else Encoded(frames[0]) + [0] + Wire(frames[1..])
  }

  function AllSome(frames: seq<seq<byte>>): (r: seq<Option<seq<byte>>>)
    ensures |r| == |frames|
  {
    seq(|frames|, i requires 0 <= i < |frames| => Some(frames[i]))
  }

  lemma {:induction false} FirstZeroOf(s: seq<byte>, rest: seq<byte>)
    requires NoZero(s)
    ensures FirstZero(s + [0] + rest) == |s|
  {
    var stream := s + [0] + rest;
    if s != [] {
      assert stream[1..] == s[1..] + [0] + rest;
      FirstZeroOf(s[1..], rest);
    } else {
      assert stream[0] == 0;
    }
  }

  lemma SegmentsStep(s: seq<byte>, rest: seq<byte>)
    requires NoZero(s)
    ensures Segments(s + [0] + rest) == [s] + Segments(rest)
    ensures Tail(s + [0] + rest) == Tail(rest)
  {
    var stream := s + [0] + rest;
    FirstZeroOf(s, rest);
    assert stream[|s|] == 0;
    assert stream[..|s|] == s && stream[|s| + 1..] == rest;
  }

  lemma SplitFirst(stream: seq<byte>) returns (s: seq<byte>, after: seq<byte>)
    requires 0 in stream
    ensures stream == s + [0] + after && NoZero(s) && |after| < |stream|
    ensures Segments(stream) == [s] + Segments(after) && Tail(stream) == Tail(after)
  {
    var k := FirstZero(stream);
    s, after := stream[..k], stream[k + 1..];
  }

  lemma {:induction false} SegmentsConcat(stream: seq<byte>, rest: seq<byte>)
    requires Tail(stream) == []
    ensures Segments(stream + rest) == Segments(stream) + Segments(rest)
    ensures Tail(stream + rest) == Tail(rest)
    decreases |stream|
  {
    if 0 !in stream {
      assert stream + rest == rest;
    } else {
      var s, after := SplitFirst(stream);
      SegmentsConcat(after, rest);
      ConcatStep(stream, s, after, rest, after + rest);
    }
  }

  lemma ConcatStep(stream: seq<byte>, s: seq<byte>, after: seq<byte>, rest: seq<byte>, longer: seq<byte>)
    requires NoZero(s) && stream == s + [0] + after && longer == after + rest
    requires Segments(longer) == Segments(after) + Segments(rest)
    ensures Segments(stream + rest) == [s] + Segments(after) + Segments(rest)
    ensures Tail(stream + rest) == Tail(longer)
  {
    assert stream + rest == s + [0] + longer;
    SegmentsStep(s, longer);
  }

  lemma {:induction false} ReceivedConcat(a: seq<seq<byte>>, b: seq<seq<byte>>, size: nat)
    ensures Received(a + b, size) == Received(a, size) + Received(b, size)
  {
    if a == [] {
      assert a + b == b;
    } else {
      assert (a + b)[1..] == a[1..] + b;
      ReceivedConcat(a[1..], b, size);
    }
  }

  lemma OneMoreFrame(frame: seq<byte>, more: seq<byte>, size: nat)
    requires |frame| <= size
    ensures Received(Segments(Encoded(frame) + [0] + more), size) == [Some(frame)] + Received(Segments(more), size)
    ensures Tail(Encoded(frame) + [0] + more) == Tail(more)
  {
    var s := Encoded(frame);
    EncodedNoZero(frame);
    DecodeEncoded(frame);
    SegmentsStep(s, more);
    var segments := [s] + Segments(more);
    assert segments[0] == s && segments[1..] == Segments(more);
  }

  /** Every list of frames that fit comes out as the same list. */
  lemma {:induction false} FramesSurvive(frames: seq<seq<byte>>, size: nat)
    requires forall i :: 0 <= i < |frames| ==> |frames[i]| <= size
    ensures Received(Segments(Wire(frames)), size) == AllSome(frames)
    ensures Tail(Wire(frames)) == []
  {
    if frames != [] {
      OneMoreFrame(frames[0], Wire(frames[1..]), size);
      FramesSurvive(frames[1..], size);
      assert AllSome(frames) == [Some(frames[0])] + AllSome(frames[1..]);
    }
  }

  /** Resynchronisation: whatever came before, from the next zero on the frames come out whole, and what came
      before changes nothing but the reports before them. */
  lemma GarbageIsForgotten(garbage: seq<byte>, frames: seq<seq<byte>>, size: nat)
    requires forall i :: 0 <= i < |frames| ==> |frames[i]| <= size
    ensures Received(Segments(garbage + [0] + Wire(frames)), size)
            == Received(Segments(garbage + [0]), size) + AllSome(frames)
  {
    EndsAtZero(garbage);
    SegmentsConcat(garbage + [0], Wire(frames));
    ReceivedConcat(Segments(garbage + [0]), Segments(Wire(frames)), size);
    FramesSurvive(frames, size);
  }

  lemma {:induction false} EndsAtZero(s: seq<byte>)
    ensures Tail(s + [0]) == []
    decreases |s|
  {
    if 0 !in s {
      SegmentsStep(s, []);
      assert s + [0] + [] == s + [0];
    } else {
      var k := FirstZero(s);
      assert s + [0] == s[..k] + [0] + (s[k + 1..] + [0]);
      SegmentsStep(s[..k], s[k + 1..] + [0]);
      EndsAtZero(s[k + 1..]);
    }
  }

  /** One more byte of the stream. */
  lemma {:induction false} NextByte(stream: seq<byte>, x: byte)
    ensures x != 0 ==> Segments(stream + [x]) == Segments(stream) && Tail(stream + [x]) == Tail(stream) + [x]
    ensures x == 0 ==> Segments(stream + [x]) == Segments(stream) + [Tail(stream)] && Tail(stream + [x]) == []
    decreases |stream|
  {
    if 0 !in stream {
      if x == 0 {
        SegmentsStep(stream, []);
        assert stream + [0] + [] == stream + [x];
      } else {
        assert 0 !in stream + [x];
      }
    } else {
      var s, after := SplitFirst(stream);
      assert stream + [x] == s + [0] + (after + [x]);
      SegmentsStep(s, after + [x]);
      NextByte(after, x);
      assert [s] + (Segments(after) + [Tail(after)]) == [s] + Segments(after) + [Tail(after)];
    }
  }

  /** A receiver that puts each byte of a stream into the decoder and keeps what it is told: for any bytes at all it
      hears of the segments between the zeros, each decoded on its own. */
  method Receive(stream: seq<byte>, decoder: CobsDecoder) returns (told: seq<Option<seq<byte>>>)
    requires decoder.Valid() && decoder.segment == []
    modifies decoder, decoder.buffer
    ensures decoder.Valid() && decoder.segment == Tail(stream)
    ensures told == Received(Segments(stream), decoder.size)
  {
    hide Received, Segments, Tail;
    NothingReceived(decoder.size);
    told := [];
    assert stream[..0] == [];
    for i := 0 to |stream|
      invariant decoder.Valid() && decoder.segment == Tail(stream[..i])
      invariant told == Received(Segments(stream[..i]), decoder.size)
    {
      told := ReceiveByte(stream[..i], stream[i], decoder, told);
      assert stream[..i + 1] == stream[..i] + [stream[i]];
    }
    assert stream[..|stream|] == stream;
  }

  lemma NothingReceived(size: nat)
    ensures Received(Segments([]), size) == [] && Tail([]) == []
  {
  }

  method ReceiveByte(ghost stream: seq<byte>, x: byte, decoder: CobsDecoder, heard: seq<Option<seq<byte>>>)
      returns (told: seq<Option<seq<byte>>>)
    requires decoder.Valid() && decoder.segment == Tail(stream)
    requires heard == Received(Segments(stream), decoder.size)
    modifies decoder, decoder.buffer
    ensures decoder.Valid() && decoder.segment == Tail(stream + [x])
    ensures told == Received(Segments(stream + [x]), decoder.size)
  {
    ghost var segment, before := decoder.segment, Segments(stream);
    NextByte(stream, x);
    var result := decoder.Put(x);
    if x == 0 {
      OneMoreReceived(before, segment, decoder.size);
    }
    told := heard;
    if result == ERROR {
      told := told + [None];
    } else if result != MORE {
      told := told + [Some(decoder.buffer[..result])];
    }
  }

  lemma OneMoreReceived(segments: seq<seq<byte>>, segment: seq<byte>, size: nat)
    ensures Received(segments + [segment], size)
            == Received(segments, size) + (if segment == [] then [] else [SegmentFrame(segment, size)])
  {
    ReceivedConcat(segments, [segment], size);
    assert [segment][1..] == [];
  }
}
