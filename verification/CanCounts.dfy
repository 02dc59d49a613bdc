/** How many bytes source/communication/pif_can_stream.c takes from its client, and how many its client leaves, told
    from the state before. */
module CanCounts {
  import opened Numbers
  import opened Bits
  import opened Seqs
  import opened CanFrames
  import opened CanData

  // ---------------------------------------------------------------- sending

  /** Bytes there is room for: full frames in the free slots of the send queue, and what the pending frame still
      takes. */
  function RoomFor(free: nat, frameSize: nat, pending: nat): nat
    requires pending <= frameSize
  {
    free * frameSize + (frameSize - pending)
  }

  lemma RoomAfterFrame(free: nat, frameSize: nat)
    ensures free > 0 ==> RoomFor(free - 1, frameSize, 0) == RoomFor(free, frameSize, frameSize)
    ensures free == 0 ==> RoomFor(free, frameSize, frameSize) == 0
  {
    if free > 0 {
      assert free * frameSize == (free - 1) * frameSize + frameSize;
    }
  }

  lemma RoomAfterBytes(free: nat, frameSize: nat, pending: nat, n: nat, sum: nat)
    requires sum == pending + n <= frameSize
    ensures RoomFor(free, frameSize, sum) == RoomFor(free, frameSize, pending) - n
  {
  }

  lemma NoRoomLeft(free: nat, frameSize: nat, pending: nat)
    requires pending <= frameSize && frameSize > 0 && RoomFor(free, frameSize, pending) == 0
    ensures free == 0 && pending == frameSize
  {
    assert free > 0 ==> free * frameSize > 0;
  }

  /** No frame holds more of so many bytes. */
  ghost predicate Largest(length: nat, bytes: int) {
    0 < length <= bytes && IsDlcLength(length)
    && forall other: nat :: IsDlcLength(other) && other <= bytes ==> other <= length
  }

  lemma FloorIsLargestOf(bytes: nat)
    requires 0 < bytes <= MAX_DATA
    ensures Largest(FloorLength(bytes), bytes)
  {
    forall other: nat | IsDlcLength(other) && other <= bytes
      ensures other <= FloorLength(bytes)
    {
      FloorIsLargest(bytes, other);
    }
    FloorIsLargest(bytes, 0);
  }

  /** Each of these frames holds as much as a frame can of what those before it have left. */
  ghost predicate Filled(bytes: nat, frames: seq<Frame>) {
    forall k :: 0 <= k < |frames| ==> Largest(frames[k].Length(), bytes - |Data(frames[..k])|)
  }

  lemma FilledNext(bytes: nat, frames: seq<Frame>, f: Frame)
    requires Filled(bytes, frames) && Largest(f.Length(), bytes - |Data(frames)|)
    ensures Filled(bytes, frames + [f])
  {
    var all := frames + [f];
    assert all[..|frames|] == frames;
    forall k | 0 <= k < |all|
      ensures Largest(all[k].Length(), bytes - |Data(all[..k])|)
    {
      if k < |frames| {
        assert all[..k] == frames[..k];
      }
    }
  }

  /** Pending bytes and free slots after _flush. */
  function AfterFlush(pending: nat, free: nat): (r: (nat, nat))
    requires pending <= MAX_DATA
    ensures Flushed(r.0, r.1)
    decreases pending
  {
    FloorIsLargest(pending, 0);
    if Flushed(pending, free) then (pending, free) else AfterFlush(pending - FloorLength(pending), free - 1)
  }

  lemma FlushStep(pending: nat, free: nat)
    requires pending <= MAX_DATA && !Flushed(pending, free)
    ensures FloorLength(pending) <= pending
    ensures AfterFlush(pending, free) == AfterFlush(pending - FloorLength(pending), free - 1)
  {
    FloorIsLargest(pending, 0);
  }

  lemma NothingToFlush(pending: nat, free: nat)
    requires pending <= MAX_DATA && Flushed(pending, free)
    ensures AfterFlush(pending, free) == (pending, free)
  {
  }

  /** Nothing is left to flush, or there is no slot for it. */
  predicate Flushed(pending: nat, free: nat) {
    pending == 0 || free == 0
  }

  /** Bytes taken from a client that writes total bytes when it is asked: none if what was pending fills the queue. */
  function BytesTaken(pending: nat, free: nat, frameSize: nat, total: nat): (taken: nat)
    requires pending <= MAX_DATA
    ensures taken <= total
  {
    var (left, slots) := AfterFlush(pending, free);
    if left > 0 || slots == 0 then 0 else Min(total, RoomFor(slots, frameSize, 0))
  }

  /** Whether the client is asked again, by the 16-bit count of the bytes taken. */
  predicate AsksAgain(taken: nat) {
    taken % 0x1_0000 != 0
  }

  /** Once what was pending is queued and slots are left, either everything written fits and is a multiple of 65536
      bytes, or less than that fits and the room is. */
  predicate CountsToZero(pending: nat, free: nat, frameSize: nat, total: nat)
    requires pending <= MAX_DATA
  {
    var (left, slots) := AfterFlush(pending, free);
    var room := RoomFor(slots, frameSize, 0);
    left == 0 && slots > 0
    && if total <= room then 0 < total && total % 0x1_0000 == 0 else room % 0x1_0000 == 0
  }

  /** Main result about the promise that a client that wrote something is asked again: it is broken exactly then. */
  lemma WhoWroteIsAskedAgain(pending: nat, free: nat, frameSize: nat, total: nat)
    requires pending <= MAX_DATA && frameSize > 0
    ensures var taken := BytesTaken(pending, free, frameSize, total);
            taken > 0 && !AsksAgain(taken) <==> CountsToZero(pending, free, frameSize, total)
  {
    var (left, slots) := AfterFlush(pending, free);
    if left == 0 && slots > 0 {
      RoomIsPositive(slots, frameSize);
    }
  }

  lemma RoomIsPositive(slots: nat, frameSize: nat)
    requires frameSize > 0
    ensures RoomFor(slots, frameSize, 0) > 0
  {
    assert slots * frameSize >= 0;
  }

  function Concat(writes: seq<seq<byte>>): seq<byte> {
    if writes == [] then [] else Concat(writes[..|writes| - 1]) + writes[|writes| - 1]
  }

  lemma ConcatNext(writes: seq<seq<byte>>, data: seq<byte>)
    ensures Concat(writes + [data]) == Concat(writes) + data
  {
    Parts(writes, [data]);
  }

  /** One more write: what is taken of it is what there is still room for. */
  lemma WriteMore(before: seq<byte>, writes: seq<seq<byte>>, data: seq<byte>, room: nat, n: nat)
    requires var taken := Min(|Concat(writes)|, room); n == Min(|data|, room - taken)
    ensures var taken, all := Min(|Concat(writes)|, room), Concat(writes + [data]);
            && Min(|all|, room) == taken + n <= |all|
            && before + Concat(writes)[..taken] + data[..n] == before + all[..taken + n]
  {
    ConcatNext(writes, data);
    var taken, all := Min(|Concat(writes)|, room), Concat(writes + [data]);
    if taken == |Concat(writes)| {
      assert all[..taken + n] == Concat(writes)[..taken] + data[..n];
    } else {
      assert all[..taken + n] == Concat(writes)[..taken];
      Units(before + Concat(writes)[..taken]);
    }
    Assoc(before, Concat(writes)[..taken], data[..n]);
  }

  // ---------------------------------------------------------------- receiving

  /** One call of the client's evt_parsing: how many bytes it reads, and whether it reports progress. */
  datatype Parse = Parse(taken: nat, progress: bool)

  /** Bytes that the first n calls ask for. */
  function AskedFor(calls: nat -> Parse, n: nat): nat {
    if n == 0 then 0 else AskedFor(calls, n - 1) + calls(n - 1).taken
  }

  /** A client that is called while there are bytes, so many at first, up to 16 times and as long as it reports
      progress, is called n times. */
  ghost predicate CalledFor(bytes: nat, calls: nat -> Parse, n: nat) {
    && n <= 16
    && (forall k :: 0 <= k < n ==> AskedFor(calls, k) < bytes)
    && (forall k :: 0 <= k < n - 1 ==> calls(k).progress)
    && (n == 16 || AskedFor(calls, n) >= bytes || (n > 0 && !calls(n - 1).progress))
  }

  lemma {:induction false} AskedForGrows(calls: nat -> Parse, a: nat, b: nat)
    requires a <= b
    ensures AskedFor(calls, a) <= AskedFor(calls, b)
    decreases b
  {
    if a < b {
      AskedForGrows(calls, a, b - 1);
    }
  }

  /** That is one number only. */
  lemma CalledForOnce(bytes: nat, calls: nat -> Parse, n: nat, m: nat)
    requires CalledFor(bytes, calls, n) && CalledFor(bytes, calls, m)
    ensures n == m
  {
  }

  /** A client that reads something and reports progress each time gets all the bytes, or 16 at least. */
  lemma EagerClientReads(bytes: nat, calls: nat -> Parse, n: nat)
    requires CalledFor(bytes, calls, n)
    requires forall k :: 0 <= k < 16 ==> calls(k).progress && calls(k).taken > 0
    ensures Min(AskedFor(calls, n), bytes) >= Min(16, bytes)
  {
    AskedForSome(calls, n);
  }

  lemma {:induction false} AskedForSome(calls: nat -> Parse, n: nat)
    requires forall k :: 0 <= k < n ==> calls(k).taken > 0
    ensures AskedFor(calls, n) >= n
  {
    if n > 0 {
      AskedForSome(calls, n - 1);
    }
  }
}
