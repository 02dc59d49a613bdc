/** source/communication/pif_can_stream.c: a byte stream carried in CAN frames. What is written is packed into frames
    of lengths CAN knows, what is received is kept in a buffer until it is read. */
module CanStream {
  import opened Bits
  import opened Numbers
  import opened Seqs
  import opened CanFrames
  import opened Marked
  import opened CanData
  import opened Can
  import opened CanCounts

  predicate IsValidFrameSize(size: nat, fd: bool) {
    if size == 0 || size > MAX_DATA then false
    else if size <= 8 then true
    else if !fd then false
    else DlcToLength(Dlc(size)) == size
  }

  /** What pifCanStream_Init accepts. */
  predicate IsValidSetup(txId: nat, rxId: nat, flags: Flags, frameSize: nat, rxSize: nat) {
    var mask := if flags.extended then EXT_ID_MASK else STD_ID_MASK;
    && 0 < rxSize < 0xFFFF
    && (flags.brs ==> flags.fd)
    && txId <= mask && rxId <= mask
    && IsValidFrameSize(frameSize, flags.fd)
  }

  class CanStream {
    const can: Can
    const txId: nat
    const rxId: nat
    const flags: Flags
    const frameSize: nat
    const rxSize: nat          // bytes the receive buffer holds
    const txData: array<byte>  // the pending frame
    var txLength: nat
    var txWritten: nat         // bytes written during the current evt_sending, a uint16_t
    var rxBuffer: seq<byte>
    var rxLost: nat            // bytes dropped, a uint16_t
    var parses: bool           // a client with evt_parsing is attached
    var sends: bool            // a client with evt_sending is attached
    ghost var sentBefore: seq<Frame>  // frames queued for earlier clients
    ghost var queued: seq<Frame>      // frames queued since the client was attached
    ghost var accepted: seq<byte>     // bytes taken from the client
    ghost var passed: seq<Frame>      // frames for the stream that came for earlier clients, or for none
    ghost var offered: seq<Frame>     // frames for the stream that came since the client was attached
    ghost var fate: seq<bool>         // whether there was room for each of these
    ghost var handed: seq<byte>       // bytes the client has read
    ghost var dropped: nat            // bytes of all frames there was no room for
    ghost var droppedBefore: nat      // the same, when the client was attached

    ghost predicate Setup()
    {
      && IsValidSetup(txId, rxId, flags, frameSize, rxSize)
      && 0 < frameSize <= MAX_DATA && txData.Length == MAX_DATA
    }

    /** Everything queued, and everything that came, whoever was attached. */
    ghost function AllQueued(): seq<Frame>
      reads `sentBefore, `queued
    {
      sentBefore + queued
    }

    ghost function AllOffered(): seq<Frame>
      reads `passed, `offered
    {
      passed + offered
    }

    ghost predicate Legal(f: Frame) {
      && f.DataFrame? && f.id == txId && f.flags == flags && 0 < |f.data| <= frameSize
      && IsDlcLength(|f.data|) && CheckFrame(f)
    }

    ghost predicate AllLegal(frames: seq<Frame>) {
      forall i :: 0 <= i < |frames| ==> Legal(frames[i])
    }

    lemma LegalNext(frames: seq<Frame>, f: Frame)
      requires AllLegal(frames) && Legal(f)
      ensures AllLegal(frames + [f])
    {
    }

    /** Every byte accepted is in a frame queued, or pending, in order. */
    ghost predicate TxValid()
      reads `txLength, `accepted, `sentBefore, `queued, txData
    {
      && Setup() && txLength <= frameSize
      && accepted == Data(queued) + txData[..txLength]
      && AllLegal(AllQueued())
    }

    /** Every byte of the frames kept has been read, or is in the buffer, in order; those of the others are counted. */
    ghost predicate RxValid()
      reads `rxBuffer, `rxLost, `parses, `offered, `fate, `handed, `dropped, `droppedBefore
    {
      && Setup() && |rxBuffer| <= rxSize && |fate| == |offered|
      && Data(Keep(offered, fate)) == handed + rxBuffer
      && dropped + |Data(Keep(offered, fate))| == droppedBefore + |Data(offered)|
      && rxLost == dropped % 0x1_0000
      && (!parses ==> offered == [])
    }

    /** The send queue has got exactly the frames that were queued since then. */
    ghost predicate SentSince(sent: seq<Frame>, before: seq<Frame>)
      reads `queued, can`sent
    {
      before <= queued && can.sent == sent + queued[|before|..]
    }

    constructor (can: Can, txId: nat, rxId: nat, flags: Flags, frameSize: nat, rxSize: nat)
      requires IsValidSetup(txId, rxId, flags, frameSize, rxSize)
      ensures TxValid() && RxValid() && this.can == can && fresh(txData)
      ensures this.txId == txId && this.rxId == rxId && this.flags == flags
      ensures this.frameSize == frameSize && this.rxSize == rxSize && txLength == 0
      ensures AllQueued() == [] && AllOffered() == [] && accepted == [] && handed == [] && dropped == 0
      ensures !parses && !sends
    {
      this.can := can;
      this.txId, this.rxId, this.flags, this.frameSize, this.rxSize := txId, rxId, flags, frameSize, rxSize;
      txData := new byte[MAX_DATA];
      txLength, txWritten, rxBuffer, rxLost, parses, sends := 0, 0, [], 0, false, false;
      sentBefore, queued, accepted := [], [], [];
      passed, offered, fate, handed, dropped, droppedBefore := [], [], [], [], 0, 0;
    }

    // -------------------------------------------------------------- sending

    lemma SendableFrame(data: seq<byte>)
      requires Setup() && 0 < |data| <= frameSize && IsDlcLength(|data|)
      ensures Legal(DataFrame(txId, flags, data))
    {
      ValidLengths(|data|, flags.fd);
      ValidLengths(frameSize, flags.fd);
    }

    /** _queueFrame: the first length bytes of the pending frame go to the send queue, the others move up. Without room
        in the queue nothing changes. */
    method QueueFrame(length: nat) returns (ok: bool)
      requires TxValid() && can.Sending() && 0 < length <= txLength && IsDlcLength(length)
      modifies `txLength, `queued, txData, can`sent, can.tx`head, can.tx.slots
      ensures TxValid() && can.Sending() && ok == (old(can.TxRemain()) > 0)
      ensures can.TxRemain() == old(can.TxRemain()) - (if ok then 1 else 0)
      ensures txLength == old(txLength) - (if ok then length else 0)
      ensures ok ==> |queued| == |old(queued)| + 1 && old(queued) <= queued && queued[|old(queued)|].DataFrame?
                     && queued[|old(queued)|].Length() == length && can.sent == old(can.sent) + [queued[|old(queued)|]]
      ensures !ok ==> queued == old(queued) && txData[..] == old(txData[..]) && can.sent == old(can.sent)
    {
      hide IsValidSetup, IsDlcLength, FloorLength, Data, Keep, Legal, RoomFor, AfterFlush;
      if can.TxRemain() == 0 {
        return false;
      }
      var f := DataFrame(txId, flags, txData[..length]);
      SendableFrame(f.data);
      ok := can.SendFrame(f);
      TakeOut(f);
    }

    /** The frame just queued leaves the pending bytes. */
    method TakeOut(f: Frame)
      requires TxValid() && Legal(f) && f.Length() <= txLength && f.data == txData[..f.Length()]
      modifies `txLength, `queued, txData
      ensures TxValid() && txLength == old(txLength) - f.Length() && queued == old(queued) + [f]
    {
      hide IsValidSetup, IsDlcLength, CheckFrame, FloorLength, Data, Keep;
      var remain := txLength - f.Length();
      MoveUp(f.Length(), remain, txLength);
      DataMoves(accepted, queued, f, txData[..remain]);
      LegalNext(AllQueued(), f);
      Assoc(sentBefore, queued, [f]);
      txLength := remain;
      queued := queued + [f];
    }

    /** memmove of the bytes that stay pending to the front. */
    method MoveUp(length: nat, remain: nat, ghost total: nat)
      requires total == length + remain <= txData.Length
      modifies txData
      ensures old(txData[..total]) == old(txData[..length]) + txData[..remain]
    {
      ghost var pending := txData[..total];
      forall k | 0 <= k < remain {
        txData[k] := txData[length + k];
      }
      assert txData[..remain] == pending[length..];
      SplitAt(pending, length);
    }

    /** memcpy behind the bytes pending. */
    method CopyIn(data: seq<byte>)
      requires txLength + |data| <= txData.Length
      modifies txData
      ensures txData[..txLength + |data|] == old(txData[..txLength]) + data
    {
      forall k | 0 <= k < |data| {
        txData[txLength + k] := data[k];
      }
    }

    /** Copies as much of data as goes into the pending frame. */
    method Fill(data: seq<byte>) returns (chunk: nat)
      requires TxValid() && txLength < frameSize && data != []
      modifies `txLength, `accepted, txData
      ensures TxValid() && 0 < chunk <= |data| && accepted == old(accepted) + data[..chunk]
      ensures txLength == old(txLength) + chunk && (chunk == |data| || txLength == frameSize)
    {
      hide IsValidSetup, IsDlcLength, FloorLength, Data, Keep, Legal, RoomFor, AfterFlush;
      chunk := frameSize - txLength;
      if chunk > |data| {
        chunk := |data|;
      }
      CopyIn(data[..chunk]);
      Assoc(Data(queued), old(txData[..txLength]), data[..chunk]);
      txLength := txLength + chunk;
      accepted := accepted + data[..chunk];
    }

    /** Bytes there is room for, in the send queue and the pending frame. */
    function TxRoom(): nat
      requires can.tx.Valid() && txLength <= frameSize
      reads `txLength, can.tx
    {
      RoomFor(can.TxRemain(), frameSize, txLength)
    }

    lemma FrameSizeIsLegal()
      requires Setup()
      ensures IsDlcLength(frameSize)
    {
      ValidLengths(frameSize, flags.fd);
    }

    /** One turn of the loop of _actSend. */
    method SendSome(data: seq<byte>) returns (chunk: nat)
      requires TxValid() && can.Sending() && data != []
      modifies `txLength, `accepted, `queued, txData, can`sent, can.tx`head, can.tx.slots
      ensures TxValid() && can.Sending() && chunk <= |data| && accepted == old(accepted) + data[..chunk]
      ensures TxRoom() == old(TxRoom()) - chunk && (chunk == 0 ==> TxRoom() == 0)
      ensures SentSince(old(can.sent), old(queued))
    {
      hide IsValidSetup, IsDlcLength, FloorLength, Data, Keep, Legal, RoomFor, AfterFlush;
      FrameSizeIsLegal();
      Units(can.sent);
      Units(queued);
      Units(accepted);
      if txLength >= frameSize {
        RoomAfterFrame(can.TxRemain(), frameSize);
        var ok := QueueFrame(frameSize);
        if !ok {
          return 0;
        }
      }
      ghost var pending := txLength;
      chunk := Fill(data);
      RoomAfterBytes(can.TxRemain(), frameSize, pending, chunk, txLength);
    }

    /** _actSend: the bytes taken are the first ones of data, as many as there is room for. */
    method ActSend(data: seq<byte>) returns (sent: nat)
      requires TxValid() && can.Sending()
      modifies `txLength, `txWritten, `accepted, `queued, txData, can`sent, can.tx`head, can.tx.slots
      ensures TxValid() && can.Sending() && SentSince(old(can.sent), old(queued))
      ensures sent == Min(|data|, old(TxRoom())) && accepted == old(accepted) + data[..sent]
      ensures TxRoom() == old(TxRoom()) - sent
      ensures sent < |data| ==> can.TxRemain() == 0 && txLength == frameSize
      ensures txWritten == (old(txWritten) + sent) % 0x1_0000
    {
      hide IsValidSetup, IsDlcLength, FloorLength, Data, Keep, Legal, RoomFor, AfterFlush;
      sent := 0;
      Units(data);
      Units(accepted);
      Units(can.sent);
      Units(queued);
      while sent < |data|
        invariant TxValid() && can.Sending() && txWritten == old(txWritten) && SentSince(old(can.sent), old(queued))
        invariant sent <= |data| && accepted == old(accepted) + data[..sent]
        invariant TxRoom() == old(TxRoom()) - sent
        decreases |data| - sent
      {
        ghost var q, s := queued, can.sent;
        var chunk := SendSome(data[sent..]);
        GrowOn(old(can.sent), old(queued), s, q, can.sent, queued);
        if chunk == 0 {
          NoRoomLeft(can.TxRemain(), frameSize, txLength);
          break;
        }
        TakeMore(old(accepted), data, sent, chunk, sent + chunk);
        sent := sent + chunk;
      }
      txWritten := (txWritten + sent) % 0x1_0000;
    }

    lemma QueuedOne(queued: seq<Frame>, before: seq<Frame>)
      requires before <= queued && |queued| == |before| + 1
      ensures queued[|before|..] == [queued[|before|]]
    {
    }

    /** _flush: what is pending is queued in as many frames as it takes, unless the queue fills up. */
    method Flush()
      requires TxValid() && can.Sending()
      modifies `txLength, `queued, txData, can`sent, can.tx`head, can.tx.slots
      ensures TxValid() && can.Sending() && SentSince(old(can.sent), old(queued))
      ensures Flushed(txLength, can.TxRemain()) && Filled(old(txLength), queued[|old(queued)|..])
      ensures (txLength, can.TxRemain()) == AfterFlush(old(txLength), old(can.TxRemain()))
    {
      hide IsValidSetup, IsDlcLength, FloorLength, Data, Keep, Legal, RoomFor, AfterFlush;
      Units(can.sent);
      Units(queued);
      NoData();
      while txLength > 0
        invariant TxValid() && can.Sending() && SentSince(old(can.sent), old(queued))
        invariant FlushedSo(old(txLength), queued[|old(queued)|..])
        invariant AfterFlush(txLength, can.TxRemain()) == AfterFlush(old(txLength), old(can.TxRemain()))
        decreases txLength
      {
        ghost var q, s := queued, can.sent;
        ghost var length := txLength;
        var ok := FlushOne();
        GrowOn(old(can.sent), old(queued), s, q, can.sent, queued);
        FlushedOneMore(old(txLength), old(queued), q, length);
        if !ok {
          break;
        }
      }
      NothingToFlush(txLength, can.TxRemain());
    }

    /** So much of what was pending has been queued, in frames as large as can be. */
    ghost predicate FlushedSo(bytes: nat, frames: seq<Frame>)
      reads `txLength
    {
      Filled(bytes, frames) && txLength == bytes - |Data(frames)|
    }

    lemma FlushedOneMore(bytes: nat, start: seq<Frame>, before: seq<Frame>, length: nat)
      requires start <= before && Filled(bytes, before[|start|..]) && length == bytes - |Data(before[|start|..])|
      requires (queued == before && txLength == length)
               || (|queued| > |before| && queued == before + [queued[|before|]] && queued[|before|].DataFrame?
                   && Largest(queued[|before|].Length(), length) && txLength == length - queued[|before|].Length())
      ensures FlushedSo(bytes, queued[|start|..])
    {
      if queued != before {
        var f := queued[|before|];
        assert queued[|start|..] == before[|start|..] + [f];
        FilledNext(bytes, before[|start|..], f);
        DataNext(before[|start|..], f);
      }
    }

    /** One turn of the loop of _flush. */
    method FlushOne() returns (ok: bool)
      requires TxValid() && can.Sending() && txLength > 0
      modifies `txLength, `queued, txData, can`sent, can.tx`head, can.tx.slots
      ensures TxValid() && can.Sending() && SentSince(old(can.sent), old(queued))
      ensures if ok then |queued| == |old(queued)| + 1 && queued == old(queued) + [queued[|old(queued)|]]
                         && queued[|old(queued)|].DataFrame?
                         && Largest(queued[|old(queued)|].Length(), old(txLength))
                         && txLength == old(txLength) - queued[|old(queued)|].Length()
              else can.TxRemain() == 0 && queued == old(queued) && txLength == old(txLength)
      ensures AfterFlush(txLength, can.TxRemain()) == AfterFlush(old(txLength), old(can.TxRemain()))
    {
      hide IsValidSetup, IsDlcLength, FloorLength, Data, Keep, Legal, RoomFor, AfterFlush;
      ghost var q := queued;
      Units(can.sent);
      Units(queued);
      FloorIsLargest(txLength, 0);
      FloorIsLargestOf(txLength);
      if can.TxRemain() > 0 {
        FlushStep(txLength, can.TxRemain());
      }
      ok := QueueFrame(FloorLength(txLength));
      if ok {
        QueuedOne(queued, q);
      }
    }

    /** So much has been written since before, out of what there was room for. */
    ghost predicate Written(before: seq<byte>, writes: seq<seq<byte>>, room: nat)
      requires can.tx.Valid() && txLength <= frameSize
      reads `accepted, `txLength, `txWritten, can.tx
    {
      var n := Min(|Concat(writes)|, room);
      && accepted == before + Concat(writes)[..n] && TxRoom() == room - n
      && txWritten == n % 0x1_0000
    }

    method ClientWrite(data: seq<byte>, ghost before: seq<byte>, ghost writes: seq<seq<byte>>, ghost room: nat)
      requires TxValid() && can.Sending() && Written(before, writes, room)
      modifies `txLength, `txWritten, `accepted, `queued, txData, can`sent, can.tx`head, can.tx.slots
      ensures TxValid() && can.Sending() && SentSince(old(can.sent), old(queued))
      ensures Written(before, writes + [data], room)
    {
      hide IsValidSetup, IsDlcLength, FloorLength, Data, Keep, Legal, RoomFor, AfterFlush;
      ghost var taken := Min(|Concat(writes)|, room);
      var n := ActSend(data);
      WriteMore(before, writes, data, room, n);
      CountOn(taken, n, taken + n);
    }

    /** The client's evt_sending writes what it likes, in as many calls as it likes. */
    method ClientWrites(writes: seq<seq<byte>>)
      requires TxValid() && can.Sending()
      modifies `txLength, `txWritten, `accepted, `queued, txData, can`sent, can.tx`head, can.tx.slots
      ensures TxValid() && can.Sending() && SentSince(old(can.sent), old(queued))
      ensures Written(old(accepted), writes, old(TxRoom()))
    {
      hide IsValidSetup, IsDlcLength, FloorLength, Data, Keep, Legal, RoomFor, AfterFlush;
      txWritten := 0;
      Units(accepted);
      Units(can.sent);
      Units(queued);
      assert writes[..0] == [];
      for i := 0 to |writes|
        invariant TxValid() && can.Sending() && SentSince(old(can.sent), old(queued))
        invariant Written(old(accepted), writes[..i], old(TxRoom()))
      {
        ghost var q, s := queued, can.sent;
        ClientWrite(writes[i], old(accepted), writes[..i], old(TxRoom()));
        GrowOn(old(can.sent), old(queued), s, q, can.sent, queued);
        TakeNext(writes, i);
      }
      Units(writes);
    }

    /** _evtCanSending once there is room: the client writes, and what it wrote is flushed. */
    method AskClient(writes: seq<seq<byte>>) returns (again: bool)
      requires TxValid() && can.Sending()
      modifies `txLength, `txWritten, `accepted, `queued, txData, can`sent, can.tx`head, can.tx.slots
      ensures TxValid() && can.Sending() && SentSince(old(can.sent), old(queued))
      ensures Flushed(txLength, can.TxRemain())
      ensures var n := Min(|Concat(writes)|, old(TxRoom()));
              accepted == old(accepted) + Concat(writes)[..n] && again == AsksAgain(n)
      ensures accepted == old(accepted) + Concat(writes) || can.TxRemain() == 0
    {
      hide IsValidSetup, IsDlcLength, FloorLength, Data, Keep, Legal, RoomFor, AfterFlush;
      ClientWrites(writes);
      Units(Concat(writes));
      if TxRoom() == 0 {
        NoRoomLeft(can.TxRemain(), frameSize, txLength);
      }
      ghost var q, s := queued, can.sent;
      Flush();
      GrowOn(old(can.sent), old(queued), s, q, can.sent, queued);
      again := txWritten != 0;
    }

    /** _evtCanSending: what was left over goes first, so that the bytes stay in order, and the client is asked only
        when all of that is queued and there is room for more. How much is taken and whether the client is asked again
        is told by the state before. */
    method EvtSending(writes: seq<seq<byte>>) returns (again: bool)
      requires TxValid() && can.Sending()
      modifies `txLength, `txWritten, `accepted, `queued, txData, can`sent, can.tx`head, can.tx.slots
      ensures TxValid() && can.Sending() && SentSince(old(can.sent), old(queued))
      ensures var total := |Concat(writes)|;
              var n := if sends then BytesTaken(old(txLength), old(can.TxRemain()), frameSize, total) else 0;
              accepted == old(accepted) + Concat(writes)[..n] && again == AsksAgain(n)
      ensures sends ==> Flushed(txLength, can.TxRemain())
      ensures sends ==> accepted == old(accepted) + Concat(writes) || can.TxRemain() == 0
    {
      hide IsValidSetup, IsDlcLength, FloorLength, Data, Keep, Legal, RoomFor, AfterFlush;
      Units(accepted);
      Units(can.sent);
      Units(queued);
      Units(Concat(writes));
      if !sends {
        return false;
      }
      Flush();
      if txLength > 0 || can.TxRemain() == 0 {
        return false;
      }
      ghost var q, s := queued, can.sent;
      again := AskClient(writes);
      GrowOn(old(can.sent), old(queued), s, q, can.sent, queued);
    }

    // -------------------------------------------------------------- receiving

    /** Of the frames for this stream, those with bytes in them. */
    predicate Mine(f: Frame) {
      Carries(f, rxId, flags.extended)
    }

    function Own(f: Frame): seq<Frame> {
      if Mine(f) then [f] else []
    }

    /** _actReceive: hands out the oldest bytes, at most count of them. */
    method ActReceive(count: nat) returns (data: seq<byte>)
      requires RxValid()
      modifies `rxBuffer, `handed
      ensures RxValid() && handed == old(handed) + data && old(rxBuffer) == data + rxBuffer
      ensures |data| == Min(count, |old(rxBuffer)|)
    {
      hide IsValidSetup, IsDlcLength, CheckFrame, FloorLength, Data, Keep, Legal;
      var n := Min(count, |rxBuffer|);
      data := rxBuffer[..n];
      SplitAt(rxBuffer, n);
      Assoc(handed, data, rxBuffer[n..]);
      rxBuffer := rxBuffer[n..];
      handed := handed + data;
    }

    /** _parse: calls the client up to 16 times, as long as there are bytes and it reports progress. calls is what the
        client does each time it is called, n how often it is. */
    method DoParse(calls: nat -> Parse) returns (emptied: bool, ghost n: nat)
      requires RxValid()
      modifies `rxBuffer, `handed
      ensures RxValid() && emptied == (!parses || rxBuffer == [])
      ensures if parses then CalledFor(|old(rxBuffer)|, calls, n) else n == 0
      ensures var read := Min(AskedFor(calls, n), |old(rxBuffer)|);
              handed == old(handed) + old(rxBuffer)[..read] && rxBuffer == old(rxBuffer)[read..]
    {
      hide IsValidSetup, IsDlcLength, CheckFrame, FloorLength, Data, Keep, Legal;
      n := 0;
      Units(handed);
      if !parses {
        return true, 0;
      }
      n := ParseLoop(calls);
      emptied := rxBuffer == [];
    }

    /** The loop of _parse. */
    method ParseLoop(calls: nat -> Parse) returns (ghost n: nat)
      requires RxValid()
      modifies `rxBuffer, `handed
      ensures RxValid() && CalledFor(|old(rxBuffer)|, calls, n)
      ensures ReadSoFar(old(handed), old(rxBuffer), AskedFor(calls, n))
    {
      hide ReadSoFar, AskedFor, RxValid;
      var i: nat := 0;
      var more := true;
      n := 0;
      NothingRead(calls);
      while i < 16 && rxBuffer != [] && more
        invariant RxValid() && i <= 16 && n <= i && (more ==> n == i) && (!more ==> n > 0 && !calls(n - 1).progress)
        invariant forall k :: 0 <= k < n ==> AskedFor(calls, k) < |old(rxBuffer)|
        invariant forall k :: 0 <= k < (if more then n else n - 1) ==> calls(k).progress
        invariant ReadSoFar(old(handed), old(rxBuffer), AskedFor(calls, n))
        decreases 16 - i
      {
        ReadAll(old(handed), old(rxBuffer), AskedFor(calls, n));
        more := ParseOnce(calls, n, old(handed), old(rxBuffer), i);
        n := n + 1;
        i := i + 1;
      }
      ReadAll(old(handed), old(rxBuffer), AskedFor(calls, n));
    }

    /** One call of the client. */
    method ParseOnce(calls: nat -> Parse, ghost n: nat, ghost before: seq<byte>, ghost buffer: seq<byte>, i: nat)
        returns (more: bool)
      requires RxValid() && n == i && AskedFor(calls, n) < |buffer| && ReadSoFar(before, buffer, AskedFor(calls, n))
      modifies `rxBuffer, `handed
      ensures RxValid() && more == calls(i).progress && ReadSoFar(before, buffer, AskedFor(calls, n + 1))
    {
      hide RxValid;
      ghost var had, left := handed, rxBuffer;
      var data := ActReceive(calls(i).taken);
      ReadMore(before, buffer, had, left, data, AskedFor(calls, n), calls(i).taken, AskedFor(calls, n + 1));
      more := calls(i).progress;
    }

    lemma NothingRead(calls: nat -> Parse)
      ensures ReadSoFar(handed, rxBuffer, AskedFor(calls, 0))
    {
      Units(handed);
    }

    lemma ReadAll(before: seq<byte>, buffer: seq<byte>, asked: nat)
      requires ReadSoFar(before, buffer, asked)
      ensures rxBuffer == [] <==> asked >= |buffer|
    {
    }

    /** Of so many bytes asked for, those that there are have been read, in order. */
    ghost predicate ReadSoFar(before: seq<byte>, buffer: seq<byte>, asked: nat)
      reads `rxBuffer, `handed
    {
      var read := Min(asked, |buffer|);
      handed == before + buffer[..read] && rxBuffer == buffer[read..]
    }

    lemma ReadMore(before: seq<byte>, buffer: seq<byte>, had: seq<byte>, left: seq<byte>, data: seq<byte>, asked: nat,
                   count: nat, next: nat)
      requires next == asked + count && asked < |buffer|
      requires had == before + buffer[..asked] && left == buffer[asked..]
      requires handed == had + data && left == data + rxBuffer && |data| == Min(count, |left|)
      ensures ReadSoFar(before, buffer, next)
    {
      var read := Min(next, |buffer|);
      assert buffer[..read] == buffer[..asked] + data;
      assert rxBuffer == left[|data|..] == buffer[read..];
      Assoc(before, buffer[..asked], data);
    }

    /** _evtCanReceive: the answer says whether the frame has the stream's ID. Its bytes are kept, all of them, exactly
        if there is room, after the client has been called for more, n times, if need be. Without a client they are not
        kept. */
    method EvtReceive(f: Frame, calls: nat -> Parse) returns (taken: bool, ghost n: nat)
      requires RxValid()
      modifies `rxBuffer, `rxLost, `handed, `passed, `offered, `fate, `dropped
      ensures RxValid()
      ensures taken == (f.DataFrame? && f.id == rxId && f.flags.extended == flags.extended)
      ensures AllOffered() == old(AllOffered()) + Own(f)
      ensures !Mine(f) || !parses ==>
                offered == old(offered) && fate == old(fate) && dropped == old(dropped) && rxBuffer == old(rxBuffer)
                && handed == old(handed)
      ensures Mine(f) && parses ==>
                var bytes := |old(rxBuffer)|;
                var read := if rxSize - bytes < f.Length() then Min(AskedFor(calls, n), bytes) else 0;
                var room := rxSize - (bytes - read) >= f.Length();
                && (rxSize - bytes < f.Length() ==> CalledFor(bytes, calls, n))
                && passed == old(passed) && offered == old(offered) + [f] && fate == old(fate) + [room]
                && dropped == old(dropped) + (if room then 0 else f.Length())
                && handed == old(handed) + old(rxBuffer)[..read]
                && rxBuffer == old(rxBuffer)[read..] + (if room then f.Bytes() else [])
    {
      hide IsValidSetup, IsDlcLength, CheckFrame, FloorLength, Data, Keep, Legal, CalledFor;
      n := 0;
      Units(AllOffered());
      Units(handed);
      if f.RemoteFrame? || f.id != rxId || flags.extended != f.flags.extended {
        return false, 0;
      }
      taken := true;
      if f.Length() == 0 {
        return;
      }
      if !parses {
        Units(passed);
        Units(passed + [f]);
        passed := passed + [f];
        return;
      }
      if rxSize - |rxBuffer| < f.Length() {
        var emptied;
        emptied, n := DoParse(calls);
      }
      KeepOrDrop(f);
    }

    method KeepOrDrop(f: Frame)
      requires RxValid() && parses && Mine(f)
      modifies `rxBuffer, `rxLost, `offered, `fate, `dropped
      ensures RxValid() && offered == old(offered) + [f] && AllOffered() == old(AllOffered()) + [f]
      ensures var room := rxSize - |old(rxBuffer)| >= f.Length();
              && fate == old(fate) + [room] && dropped == old(dropped) + (if room then 0 else f.Length())
              && rxBuffer == old(rxBuffer) + (if room then f.Bytes() else [])
    {
      hide IsValidSetup, IsDlcLength, CheckFrame, FloorLength, Data, Keep, Legal;
      var room := rxSize - |rxBuffer| >= f.Length();
      KeepNext(offered, fate, f, room);
      DataNext(offered, f);
      Assoc(passed, offered, [f]);
      if room {
        DataNext(Keep(offered, fate), f);
        Assoc(handed, rxBuffer, f.data);
        rxBuffer := rxBuffer + f.data;
      } else {
        Units(Keep(offered, fate));
        Units(rxBuffer);
        CountOn(dropped, f.Length(), dropped + f.Length());
        rxLost := (rxLost + f.Length()) % 0x1_0000;
        dropped := dropped + f.Length();
      }
      offered, fate := offered + [f], fate + [room];
    }

    // -------------------------------------------------------------- the client

    /** What is pending is forgotten; what was queued stays queued. */
    method ForgetPending()
      requires TxValid()
      modifies `txLength, `sentBefore, `queued, `accepted
      ensures TxValid() && txLength == 0 && accepted == [] && queued == [] && AllQueued() == old(AllQueued())
    {
      hide IsValidSetup, IsDlcLength, CheckFrame, FloorLength, Data, Keep, Legal;
      NoData();
      Units(AllQueued());
      txLength := 0;
      sentBefore, queued, accepted := AllQueued(), [], [];
    }

    /** What is in the buffer is forgotten. */
    method ForgetBuffer(parses: bool)
      requires RxValid()
      modifies `parses, `rxBuffer, `passed, `offered, `fate, `handed, `droppedBefore
      ensures RxValid() && this.parses == parses && rxBuffer == [] && handed == [] && offered == []
      ensures AllOffered() == old(AllOffered())
    {
      hide IsValidSetup, IsDlcLength, CheckFrame, FloorLength, Data, Keep, Legal;
      NoData();
      KeepAll<Frame>([], []);
      Units(AllOffered());
      rxBuffer := [];
      this.parses := parses;
      passed, offered, fate, handed, droppedBefore := AllOffered(), [], [], [], dropped;
    }

    /** _evtAttachClient and _evtDetachClient: both leave nothing of an earlier client's bytes behind. */
    method SetClient(parses: bool, sends: bool)
      requires TxValid() && RxValid()
      modifies `parses, `sends, `txLength, `rxBuffer, `sentBefore, `queued, `accepted, `passed, `offered, `fate,
               `handed, `droppedBefore
      ensures TxValid() && RxValid() && this.parses == parses && this.sends == sends && txLength == 0 && rxBuffer == []
      ensures accepted == [] && queued == [] && handed == [] && offered == []
      ensures AllQueued() == old(AllQueued()) && AllOffered() == old(AllOffered())
    {
      hide IsValidSetup, IsDlcLength, CheckFrame, FloorLength, Data, Keep, Legal;
      ForgetPending();
      ForgetBuffer(parses);
      this.sends := sends;
    }
  }

  /** A client that writes 65536 bytes, in two calls of act_send, into an empty send queue for 1024 frames of 64 bytes:
      all of them are taken, and it is not asked again. */
  method NotAskedAgain() returns (stream: CanStream, again: bool)
    ensures !again && |stream.accepted| == 0x1_0000
  {
    hide Concat, Data, Keep, BytesTaken, AfterFlush, RoomFor, IsValidSetup;
    hide Can.Receiving, Can.Sending, CanStream.TxValid, CanStream.RxValid;
    GoodSetup();
    var can := new Can(1, 1024);
    stream := new CanStream(can, 1, 2, Flags(false, true, false), 64, 1);
    stream.SetClient(true, true);
    var data := seq(0x8000, _ => 0 as byte);
    TwoWrites(data);
    TakesAll();
    again := stream.EvtSending([data, data]);
  }

  lemma GoodSetup()
    ensures IsValidSetup(1, 2, Flags(false, true, false), 64, 1)
  {
  }

  lemma TakesAll()
    ensures BytesTaken(0, 1024, 64, 0x1_0000) == 0x1_0000
  {
    NothingToFlush(0, 1024);
  }

  lemma TwoWrites(data: seq<byte>)
    ensures |Concat([data, data])| == |data| + |data|
  {
    ConcatNext([], data);
    ConcatNext([data], data);
    assert [] + [data] == [data] && [data] + [data] == [data, data];
  }
}
