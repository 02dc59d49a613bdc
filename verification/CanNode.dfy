/** A node of a CAN bus: its controller, the clients of that, one of which is a stream, and the two tasks of
    source/communication/pif_can.c that serve them. */
module CanNode {
  import opened Bits
  import opened Options
  import opened Seqs
  import opened CanFrames
  import opened Marked
  import opened CanData
  import opened CanRuns
  import opened CanCounts
  import opened Can
  import opened CanStream

  const STREAM: nat := 0   // identity of the client the stream embeds

  /** The stream among the clients of its controller. */
  ghost predicate Listed(clients: seq<Client>, place: nat, rxId: nat, extended: bool) {
    && place < |clients| && clients[place] == Client.Stream(STREAM, rxId, extended)
    && forall i :: 0 <= i < |clients| && i != place ==> clients[i].Other?
  }

  /** No other client takes frames with bytes for the stream: those before it leave them, and those behind it are not
      offered them. */
  ghost predicate LeftToStream(events: Events, rxId: nat, extended: bool) {
    forall turn, i, f :: Carries(f, rxId, extended) ==> !events.answer(turn, i, f)
  }

  /** Clients that may be in the list before the stream comes into it. */
  ghost predicate Before(others: seq<Client>) {
    && (forall i :: 0 <= i < |others| ==> others[i].Other? && others[i].id != STREAM)
    && (forall i, j :: 0 <= i < j < |others| ==> others[i].id != others[j].id)
  }

  lemma ListedAtEnd(others: seq<Client>, all: seq<Client>, rxId: nat, extended: bool)
    requires Before(others) && all == others + [Client.Stream(STREAM, rxId, extended)]
    ensures Listed(all, |others|, rxId, extended) && forall i, j :: 0 <= i < j < |all| ==> all[i].id != all[j].id
  {
  }

  lemma BeforeIsDistinct(can: Can, others: seq<Client>)
    requires Before(others) && can.clients == others
    ensures can.DistinctClients() && forall i :: 0 <= i < |others| ==> others[i].id != STREAM
  {
  }

  lemma ListedWithout(clients: seq<Client>, place: nat, at: nat, rxId: nat, extended: bool)
    requires Listed(clients, place, rxId, extended) && at <= |clients| && at != place
    ensures Listed(clients[..at] + (if at < |clients| then clients[at + 1..] else []),
                   if at < place then place - 1 else place, rxId, extended)
  {
  }

  /** Sending some frames more leaves the account of those for the stream right. */
  lemma SentMore(sent: seq<Frame>, more: seq<Frame>, id: nat, extended: bool, account: seq<Frame>)
    requires Carried(sent, id, extended) == account
    ensures AllCarry(more, id, extended) ==> Carried(sent + more, id, extended) == account + more
    ensures NoneCarries(more, id, extended) ==> Carried(sent + more, id, extended) == account
  {
    CarriedConcat(sent, more, id, extended);
    if AllCarry(more, id, extended) {
      CarriedAll(more, id, extended);
    }
    if NoneCarries(more, id, extended) {
      CarriedNone(more, id, extended);
      Units(account);
    }
  }

  /** A frame that no client up to the stream takes has no bytes for it. */
  lemma NobodySoFar(clients: seq<Client>, f: Frame, i: nat, place: nat, rxId: nat, extended: bool, turn: nat,
                    events: Events)
    requires Listed(clients, place, rxId, extended) && place < i <= |clients|
    requires FirstTaker(clients, f, i, turn, events) == FirstTaker(clients, f, 0, turn, events)
    ensures !Carries(f, rxId, extended)
  {
    TakerComes(clients, f, 0, place, turn, events);
  }

  lemma {:induction false} TakerComes(clients: seq<Client>, f: Frame, i: nat, place: nat, turn: nat, events: Events)
    requires i <= place < |clients|
    ensures var taker := FirstTaker(clients, f, i, turn, events);
            Takes(clients, place, f, turn, events) ==> taker.Some? && taker.value <= place
    decreases place - i
  {
    if i < place && !Takes(clients, i, f, turn, events) {
      TakerComes(clients, f, i + 1, place, turn, events);
    }
  }

  /** The run that began when start had been delivered goes on from here. */
  ghost predicate RunFrom(start: seq<Delivery>, goal: Run, s: Rx, delivered: seq<Delivery>, turn: nat, capacity: nat,
                          clients: seq<Client>, events: Events) {
    var rest := RunRx(s, turn, capacity, clients, events);
    start + goal.delivered == delivered + rest.delivered && goal.rx == rest.rx
  }

  lemma RunStarts(s: Rx, delivered: seq<Delivery>, capacity: nat, clients: seq<Client>, events: Events)
    ensures RunFrom(delivered, RunRx(s, 0, capacity, clients, events), s, delivered, 0, capacity, clients, events)
  {
  }

  lemma RunEnds(start: seq<Delivery>, goal: Run, s: Rx, delivered: seq<Delivery>, turn: nat, capacity: nat,
                clients: seq<Client>, events: Events)
    requires RunFrom(start, goal, s, delivered, turn, capacity, clients, events) && turn >= capacity
    ensures start + goal.delivered == delivered && goal.rx == s
  {
    Units(delivered);
  }

  lemma NothingYet(id: nat, extended: bool)
    ensures Frames([]) == [] && Carried([], id, extended) == []
  {
  }

  // ---------------------------------------------------------------- asking the clients

  /** Of these frames, those that SendFrame takes with so many free slots in the send queue. */
  function Accepted(frames: seq<Frame>, free: nat): (r: seq<Frame>)
    ensures |r| <= free && |r| <= |frames|
  {
    if frames == [] then [] else
    var before, f := Accepted(frames[..|frames| - 1], free), frames[|frames| - 1];
    if CheckFrame(f) && |before| < free then before + [f] else before
  }

  lemma AcceptedNext(sent: seq<Frame>, frames: seq<Frame>, i: nat, next: nat, free: nat)
    requires next == i + 1 <= |frames|
    ensures var before := Accepted(frames[..i], free);
            sent + Accepted(frames[..next], free)
            == sent + before + (if CheckFrame(frames[i]) && |before| < free then [frames[i]] else [])
  {
    assert frames[..next][..i] == frames[..i];
    var before := Accepted(frames[..i], free);
    Units(sent + before);
    Assoc(sent, before, [frames[i]]);
  }

  /** Of the frames that clients i to j send when they are asked one after the other, those that are taken. */
  function AskedFrames(sends: nat -> seq<Frame>, i: nat, j: nat, free: nat): (r: seq<Frame>)
    ensures |r| <= free
    decreases j
  {
    if j <= i then [] else
    var before := AskedFrames(sends, i, j - 1, free);
    before + Accepted(sends(j - 1), free - |before|)
  }

  /** What there is to know of what has been sent: the frames, those of them that the stream queued, the bytes it took
      and how many of them are pending. */
  datatype Sent = Sent(frames: seq<Frame>, queued: seq<Frame>, accepted: seq<byte>, pending: nat)

  /** The client of the stream: whether it has evt_sending, the frame size, and what it writes when it is asked. */
  datatype Writer = Writer(sends: bool, frameSize: nat, writes: seq<seq<byte>>)

  /** How many bytes are taken from it with so many pending and so many free slots. */
  function BytesAsked(pending: nat, free: nat, w: Writer): (n: nat)
    ensures n <= |Concat(w.writes)|
  {
    if w.sends && pending <= MAX_DATA then BytesTaken(pending, free, w.frameSize, |Concat(w.writes)|) else 0
  }

  /** The clients up to i have been asked, each once and in their order, with the slots that those before it left of so
      many free ones: the stream, at that place of the list, took as many bytes as there was room for, and of the others
      the frames that there was room for are in the send queue. */
  ghost predicate Asked(i: nat, place: nat, before: Sent, now: Sent, free: nat, w: Writer, sends: nat -> seq<Frame>) {
    var first := AskedFrames(sends, 0, if i <= place then i else place, free);
    if i <= place then
      now == before.(frames := before.frames + first)
    else
      && before.queued <= now.queued && |first| + |now.queued| - |before.queued| <= free
      && var own, left := now.queued[|before.queued|..], free - |first|;
         && now.frames == before.frames + first + own + AskedFrames(sends, place + 1, i, left - |own|)
         && now.accepted == before.accepted + Concat(w.writes)[..BytesAsked(before.pending, left, w)]
  }

  lemma NobodyAsked(place: nat, before: Sent, free: nat, w: Writer, sends: nat -> seq<Frame>)
    ensures Asked(0, place, before, before, free, w, sends)
  {
    Units(before.frames);
  }

  lemma AskedOther(i: nat, next: nat, place: nat, before: Sent, now: Sent, later: Sent, free: nat, w: Writer,
                   sends: nat -> seq<Frame>)
    requires Asked(i, place, before, now, free, w, sends) && i != place && next == i + 1
    requires |now.frames| - |before.frames| <= free
    requires later == now.(frames := now.frames + Accepted(sends(i), free - (|now.frames| - |before.frames|)))
    ensures Asked(next, place, before, later, free, w, sends)
  {
    hide BytesAsked, Concat, Accepted;
    var first := AskedFrames(sends, 0, if i <= place then i else place, free);
    if i < place {
      Assoc(before.frames, first, Accepted(sends(i), free - |first|));
    } else {
      var own := now.queued[|before.queued|..];
      var left := free - |first| - |own|;
      var rest := AskedFrames(sends, place + 1, i, left);
      Assoc(before.frames + first + own, rest, Accepted(sends(i), left - |rest|));
    }
  }

  lemma AskedStream(place: nat, before: Sent, now: Sent, later: Sent, free: nat, w: Writer, sends: nat -> seq<Frame>)
    requires Asked(place, place, before, now, free, w, sends) && now.queued <= later.queued
    requires later.frames == now.frames + later.queued[|now.queued|..]
    requires |later.frames| - |before.frames| <= free
    requires var n := BytesAsked(now.pending, free - (|now.frames| - |before.frames|), w);
             later.accepted == now.accepted + Concat(w.writes)[..n]
    ensures Asked(place + 1, place, before, later, free, w, sends)
  {
    hide BytesAsked, Concat, Accepted;
    Units(later.frames);
  }

  class Node {
    const can: Can
    const stream: CanStream
    ghost var place: nat   // of the stream in the list of clients

    ghost function Repr(): set<object> {
      {this, can, can.rx, can.rx.slots, can.tx, can.tx.slots, stream, stream.txData}
    }

    /** The frames queued with the stream's ID are those the stream has queued. */
    ghost predicate SendAccount()
      reads can`sent, stream`sentBefore, stream`queued
    {
      Carried(can.sent, stream.txId, stream.flags.extended) == stream.AllQueued()
    }

    /** The frames delivered that have bytes for the stream have been given to it. */
    ghost predicate ReceiveAccount()
      reads can`delivered, stream`passed, stream`offered
    {
      Carried(Frames(can.delivered), stream.rxId, stream.flags.extended) == stream.AllOffered()
    }

    ghost predicate Sends()
      reads can`sent, can`transmitted, can.tx, can.tx.slots
      reads stream`txLength, stream`accepted, stream`sentBefore, stream`queued, stream.txData
    {
      stream.can == can && can.Sending() && stream.TxValid() && SendAccount()
    }

    ghost predicate Receives()
      reads can`bus, can`heard, can`stored, can`delivered, can`rxLost, can`clients, can.rx, can.rx.slots
      reads stream`rxBuffer, stream`rxLost, stream`parses, stream`passed, stream`offered, stream`fate
      reads stream`handed, stream`dropped, stream`droppedBefore, `place
    {
      && can.Receiving() && stream.RxValid() && ReceiveAccount()
      && can.DistinctClients() && Listed(can.clients, place, stream.rxId, stream.flags.extended)
    }

    ghost predicate Valid()
      reads Repr()
    {
      Sends() && Receives()
    }

    /** The stream comes into the list, where there are others already. */
    constructor (can: Can, stream: CanStream, others: seq<Client>)
      requires stream.can == can && can.Receiving() && can.Sending() && stream.TxValid() && stream.RxValid()
      requires can.sent == [] && can.delivered == [] && stream.AllQueued() == [] && stream.AllOffered() == []
      requires Before(others) && can.clients == others
      modifies can`clients
      ensures Valid() && this.can == can && this.stream == stream
    {
      hide Listed, Before, Can.Receiving, Can.Sending, CanStream.TxValid, CanStream.RxValid;
      this.can := can;
      this.stream := stream;
      place := |others|;
      new;
      var own := Client.Stream(STREAM, stream.rxId, stream.flags.extended);
      ListedAtEnd(others, others + [own], stream.rxId, stream.flags.extended);
      NothingYet(stream.rxId, stream.flags.extended);
      NothingYet(stream.txId, stream.flags.extended);
      BeforeIsDistinct(can, others);
      var ok := can.AddClient(own);
    }

    lemma OwnParts()
      requires Receives()
      ensures can.rx != can.tx && can.rx.slots != can.tx.slots
      ensures Listed(can.clients, place, stream.rxId, stream.flags.extended)
      ensures forall i :: 0 <= i < |can.bus| ==> can.bus[i].Length() <= MAX_DATA
    {
    }

    // -------------------------------------------------------------- sending

    /** What the stream has queued since then is in the send queue. */
    lemma StreamSent(sent: seq<Frame>, queued: seq<Frame>)
      requires stream.can == can && stream.TxValid() && stream.SentSince(sent, queued)
      requires Carried(sent, stream.txId, stream.flags.extended) == stream.sentBefore + queued
      ensures SendAccount()
    {
      hide Data, Keep, Carried, IsValidSetup, IsDlcLength;
      var more, all := stream.queued[|queued|..], stream.AllQueued();
      SplitAt(stream.queued, |queued|);
      assert stream.queued[..|queued|] == queued;
      Assoc(stream.sentBefore, queued, more);
      forall i | 0 <= i < |more|
        ensures Carries(more[i], stream.txId, stream.flags.extended)
      {
        assert more[i] == stream.queued[|queued| + i] == all[|stream.sentBefore| + |queued| + i];
      }
      SentMore(sent, more, stream.txId, stream.flags.extended, stream.sentBefore + queued);
      assert stream.can.sent == sent + more;
    }

    /** The client of the stream writes outside of evt_sending. */
    method Write(data: seq<byte>) returns (sent: nat)
      requires Sends()
      modifies stream`txLength, stream`txWritten, stream`accepted, stream`queued, stream.txData
      modifies can`sent, can.tx`head, can.tx.slots
      ensures Sends()
    {
      hide Data, Keep, Carried, IsValidSetup, CanStream.Legal, RoomFor, Concat, AfterFlush;
      ghost var s, q := can.sent, stream.queued;
      sent := stream.ActSend(data);
      StreamSent(s, q);
    }

    /** evt_sending of the stream. */
    method StreamSending(writes: seq<seq<byte>>)
      requires Sends()
      modifies stream`txLength, stream`txWritten, stream`accepted, stream`queued, stream.txData
      modifies can`sent, can.tx`head, can.tx.slots
      ensures Sends() && stream.SentSince(old(can.sent), old(stream.queued))
      ensures var n := BytesAsked(old(stream.txLength), old(can.TxRemain()), Asks(writes));
              stream.accepted == old(stream.accepted) + Concat(writes)[..n]
    {
      hide Data, Keep, Carried, IsValidSetup, CanStream.Legal, RoomFor, Concat, AfterFlush;
      ghost var s, q := can.sent, stream.queued;
      var again := stream.EvtSending(writes);
      StreamSent(s, q);
    }

    function Asks(writes: seq<seq<byte>>): Writer
      reads stream`sends
    {
      Writer(stream.sends, stream.frameSize, writes)
    }

    /** Other clients send frames, but none with bytes under the stream's ID. */
    method OthersSend(frames: seq<Frame>)
      requires Sends() && NoneCarries(frames, stream.txId, stream.flags.extended)
      modifies can`sent, can.tx`head, can.tx.slots
      ensures Sends() && can.sent == old(can.sent) + Accepted(frames, old(can.TxRemain()))
    {
      hide Data, Keep, Carried, IsValidSetup, CanStream.Legal, RoomFor, Concat, AfterFlush;
      FreeSlots();
      Units(can.sent);
      assert frames[..0] == [];
      for i := 0 to |frames|
        invariant Sends() && can.sent == old(can.sent) + Accepted(frames[..i], old(can.TxRemain()))
      {
        SentMore(can.sent, [frames[i]], stream.txId, stream.flags.extended, stream.AllQueued());
        FreeSlots();
        Units(can.sent);
        AcceptedNext(old(can.sent), frames, i, i + 1, old(can.TxRemain()));
        var ok := can.SendFrame(frames[i]);
      }
      Units(frames);
    }

    lemma FreeSlots()
      requires Sends()
      ensures stream.can == can && can.tx.Valid()
      ensures can.TxRemain() + |can.sent| == can.tx.Capacity() + |can.transmitted|
    {
    }

    ghost function SentNow(): Sent
      reads can`sent, stream`queued, stream`accepted, stream`txLength
    {
      Sent(can.sent, stream.queued, stream.accepted, stream.txLength)
    }

    /** _doTxTask: the clients are asked in the order of the list, then the hardware gets the frames. writes and sends
        are what the clients do when they are asked, answers what act_send_frame returns. */
    method DoTxTask(writes: seq<seq<byte>>, sends: nat -> seq<Frame>, answers: seq<bool>) returns (taken: seq<Frame>)
      requires Sends() && forall i :: NoneCarries(sends(i), stream.txId, stream.flags.extended)
      requires Listed(can.clients, place, stream.rxId, stream.flags.extended)
      modifies stream`txLength, stream`txWritten, stream`accepted, stream`queued, stream.txData
      modifies can`sent, can`transmitted, can.tx, can.tx.slots
      ensures Sends() && can.transmitted == old(can.transmitted) + taken
      ensures can.busOff ==> taken == [] && SentNow() == old(SentNow())
      ensures !can.busOff ==>
                Asked(|can.clients|, place, old(SentNow()), SentNow(), old(can.TxRemain()), Asks(writes), sends)
      ensures |taken| <= |answers| && forall k :: 0 <= k < |taken| ==> answers[k] && taken[k].Length() <= MAX_DATA
      ensures !can.busOff && can.tx.Contents() != [] ==> |taken| == |answers| || !answers[|taken|]
    {
      hide Asked, NoneCarries;
      taken := [];
      Units(can.transmitted);
      if can.busOff {
        return;
      }
      AskClients(writes, sends);
      taken := can.Transmit(answers);
    }

    method AskClients(writes: seq<seq<byte>>, sends: nat -> seq<Frame>)
      requires Sends() && forall i :: NoneCarries(sends(i), stream.txId, stream.flags.extended)
      requires Listed(can.clients, place, stream.rxId, stream.flags.extended)
      modifies stream`txLength, stream`txWritten, stream`accepted, stream`queued, stream.txData
      modifies can`sent, can.tx`head, can.tx.slots
      ensures Sends()
      ensures Asked(|can.clients|, place, old(SentNow()), SentNow(), old(can.TxRemain()), Asks(writes), sends)
    {
      hide Sends, NoneCarries, Asked, Accepted, CanStream.SentSince;
      ghost var before := SentNow();
      FreeSlots();
      ghost var free := can.TxRemain();
      NobodyAsked(place, before, free, Asks(writes), sends);
      for i := 0 to |can.clients|
        invariant Sends() && can.tx.Valid() && can.TxRemain() + |can.sent| == free + |before.frames|
        invariant Asked(i, place, before, SentNow(), free, Asks(writes), sends)
      {
        AskOne(i, before, free, writes, sends);
      }
    }

    /** One turn of that loop. */
    method AskOne(i: nat, ghost before: Sent, ghost free: nat, writes: seq<seq<byte>>, sends: nat -> seq<Frame>)
      requires Sends() && i < |can.clients| && NoneCarries(sends(i), stream.txId, stream.flags.extended)
      requires Listed(can.clients, place, stream.rxId, stream.flags.extended)
      requires can.tx.Valid() && can.TxRemain() + |can.sent| == free + |before.frames|
      requires Asked(i, place, before, SentNow(), free, Asks(writes), sends)
      modifies stream`txLength, stream`txWritten, stream`accepted, stream`queued, stream.txData
      modifies can`sent, can.tx`head, can.tx.slots
      ensures Sends() && can.tx.Valid() && can.TxRemain() + |can.sent| == free + |before.frames|
      ensures Asked(i + 1, place, before, SentNow(), free, Asks(writes), sends)
    {
      hide Sends, NoneCarries, Asked, Accepted, Concat, BytesAsked;
      FreeSlots();
      ghost var now := SentNow();
      if can.clients[i].Stream? {
        StreamSending(writes);
        FreeSlots();
        AskedStream(place, before, now, SentNow(), free, Asks(writes), sends);
      } else {
        OthersSend(sends(i));
        FreeSlots();
        AskedOther(i, i + 1, place, before, now, SentNow(), free, Asks(writes), sends);
      }
    }

    // -------------------------------------------------------------- receiving

    /** evt_receive of client i. */
    method Receive(i: nat, f: Frame, turn: nat, events: Events, calls: nat -> Parse) returns (taken: bool)
      requires stream.RxValid() && i < |can.clients| && Listed(can.clients, place, stream.rxId, stream.flags.extended)
      modifies stream`rxBuffer, stream`rxLost, stream`handed, stream`passed, stream`offered, stream`fate, stream`dropped
      ensures stream.RxValid() && taken == Takes(can.clients, i, f, turn, events)
      ensures stream.AllOffered() == old(stream.AllOffered()) + (if i == place then stream.Own(f) else [])
    {
      match can.clients[i]
      case Stream(_, _, _) =>
        ghost var n;
        taken, n := stream.EvtReceive(f, calls);
      case Other(_, hasReceive) =>
        taken := hasReceive && events.answer(turn, i, f);
        Units(stream.AllOffered());
    }

    ghost predicate Offering(f: Frame)
      reads can`bus, can`heard, can`stored, can`delivered, can`rxLost, can`clients, can.rx, can.rx.slots
      reads stream`rxBuffer, stream`rxLost, stream`parses, stream`passed, stream`offered, stream`fate
      reads stream`handed, stream`dropped, stream`droppedBefore, `place
    {
      && can.Receiving() && stream.RxValid() && can.rx.Contents() != [] && can.rx.Contents()[0] == f
      && place < |can.clients| && Listed(can.clients, place, stream.rxId, stream.flags.extended)
    }

    ghost predicate Left(events: Events) {
      LeftToStream(events, stream.rxId, stream.flags.extended)
    }

    /** A frame with bytes for the stream is taken by it and by no client before it. */
    lemma NotTakenBefore(f: Frame, i: nat, turn: nat, events: Events)
      requires Offering(f) && i <= |can.clients| && Left(events)
      requires FirstTaker(can.clients, f, i, turn, events) == FirstTaker(can.clients, f, 0, turn, events)
      ensures place < |can.clients|
      ensures i > place ==> !stream.Mine(f)
      ensures i < place && Takes(can.clients, i, f, turn, events) ==> !stream.Mine(f)
    {
      if i > place {
        NobodySoFar(can.clients, f, i, place, stream.rxId, stream.flags.extended, turn, events);
      }
    }

    /** No client before i takes the frame; so much has arrived while they were offered it, and nothing was given to the
        stream. */
    ghost predicate Asking(f: Frame, i: nat, s: Rx, offered: seq<Frame>, turn: nat, events: Events)
      requires can.rx.Valid()
      reads can`bus, can`heard, can`stored, can`clients, can.rx, can.rx.slots, stream`passed, stream`offered
    {
      && i <= |can.clients| && stream.AllOffered() == offered
      && FirstTaker(can.clients, f, i, turn, events) == FirstTaker(can.clients, f, 0, turn, events)
      && can.View() == Until(s, turn, events, 2 + i, can.rx.Capacity())
    }

    /** The frame has been offered to all clients it takes, and given to the stream if it is the stream's. */
    ghost predicate Offered(f: Frame, taker: Option<nat>, s: Rx, offered: seq<Frame>, turn: nat, events: Events)
      requires can.rx.Valid()
      reads can`bus, can`heard, can`stored, can`clients, can.rx, can.rx.slots, stream`passed, stream`offered
    {
      && taker == FirstTaker(can.clients, f, 0, turn, events)
      && can.View() == Until(s, turn, events, LastPoint(can.clients, f, turn, events), can.rx.Capacity())
      && stream.AllOffered() == offered + stream.Own(f)
    }

    /** Offers the frame in the slot to one client after the other, with interrupts before each. */
    method Offer(slot: nat, ghost f: Frame, turn: nat, events: Events, calls: nat -> Parse)
        returns (taker: Option<nat>)
      requires Left(events) && Offering(f) && slot == can.rx.tail
      modifies stream`rxBuffer, stream`rxLost, stream`handed, stream`passed, stream`offered, stream`fate, stream`dropped
      modifies can`rxLost, can`heard, can`stored, can`bus, can.rx`head, can.rx.slots
      ensures Offering(f) && can.rx.Valid() && can.rx.Capacity() == old(can.rx.Capacity())
      ensures can.clients == old(can.clients)
      ensures Offered(f, taker, old(can.View()), old(stream.AllOffered()), turn, events)
    {
      hide Asking, Offered, Offering;
      AskingFirst(f, turn, events);
      ghost var s, offered := can.View(), stream.AllOffered();
      var i: nat := 0;
      while i < |can.clients|
        invariant i <= |can.clients| && Offering(f) && can.rx.Valid() && Asking(f, i, s, offered, turn, events)
      {
        var taken := OfferNext(i, slot, f, s, offered, turn, events, calls);
        if taken {
          return Some(i);
        }
        i := i + 1;
      }
      NobodyTakes(f, s, offered, turn, events);
      taker := None;
    }

    lemma AskingFirst(f: Frame, turn: nat, events: Events)
      requires Offering(f)
      ensures can.rx.Valid() && Asking(f, 0, can.View(), stream.AllOffered(), turn, events)
    {
      UntilFirst(can.View(), turn, events, can.rx.Capacity());
    }

    lemma NobodyTakes(f: Frame, s: Rx, offered: seq<Frame>, turn: nat, events: Events)
      requires Left(events) && Offering(f) && Asking(f, |can.clients|, s, offered, turn, events)
      ensures Offered(f, None, s, offered, turn, events)
    {
      NotTakenBefore(f, |can.clients|, turn, events);
      TakerStep(can.clients, f, |can.clients|, |can.clients| + 1, turn, events);
      Units(offered);
    }

    lemma AskingIs(f: Frame, i: nat, s: Rx, offered: seq<Frame>, turn: nat, events: Events)
      requires can.rx.Valid() && Asking(f, i, s, offered, turn, events)
      ensures can.View() == Until(s, turn, events, 2 + i, can.rx.Capacity()) && stream.AllOffered() == offered
      ensures FirstTaker(can.clients, f, i, turn, events) == FirstTaker(can.clients, f, 0, turn, events)
    {
    }

    lemma AskedOne(f: Frame, i: nat, s: Rx, offered: seq<Frame>, turn: nat, events: Events, before: Rx, taken: bool)
      requires can.rx.Valid() && i < |can.clients|
      requires FirstTaker(can.clients, f, i, turn, events) == FirstTaker(can.clients, f, 0, turn, events)
      requires before == Until(s, turn, events, 2 + i, can.rx.Capacity())
      requires can.View() == Arrive(before, events.arrive(turn, 2 + i), can.rx.Capacity())
      requires taken == Takes(can.clients, i, f, turn, events)
      requires stream.AllOffered() == if taken then offered + stream.Own(f) else offered
      ensures if taken then Offered(f, Some(i), s, offered, turn, events)
              else Asking(f, i + 1, s, offered, turn, events)
    {
      TakerStep(can.clients, f, i, i + 1, turn, events);
      UntilNext(s, turn, events, 2 + i, 3 + i, can.rx.Capacity());
    }

    /** One turn of that loop. */
    method OfferNext(i: nat, slot: nat, ghost f: Frame, ghost s: Rx, ghost offered: seq<Frame>, turn: nat,
                     events: Events, calls: nat -> Parse) returns (taken: bool)
      requires i < |can.clients| && Left(events) && Offering(f) && can.rx.Valid() && slot == can.rx.tail
      requires Asking(f, i, s, offered, turn, events)
      modifies stream`rxBuffer, stream`rxLost, stream`handed, stream`passed, stream`offered, stream`fate, stream`dropped
      modifies can`rxLost, can`heard, can`stored, can`bus, can.rx`head, can.rx.slots
      ensures Offering(f) && can.rx.Valid() && can.rx.Capacity() == old(can.rx.Capacity())
      ensures can.clients == old(can.clients)
      ensures if taken then Offered(f, Some(i), s, offered, turn, events)
              else Asking(f, i + 1, s, offered, turn, events)
    {
      hide Offering, Asking, Offered, FirstTaker, Until;
      AskingIs(f, i, s, offered, turn, events);
      ghost var before := can.View();
      taken := OfferOne(i, slot, f, turn, events, calls);
      AskedOne(f, i, s, offered, turn, events, before, taken);
    }

    method OfferOne(i: nat, slot: nat, ghost f: Frame, turn: nat, events: Events, calls: nat -> Parse)
        returns (taken: bool)
      requires Left(events) && Offering(f) && slot == can.rx.tail && i < |can.clients|
      requires FirstTaker(can.clients, f, i, turn, events) == FirstTaker(can.clients, f, 0, turn, events)
      modifies stream`rxBuffer, stream`rxLost, stream`handed, stream`passed, stream`offered, stream`fate, stream`dropped
      modifies can`rxLost, can`heard, can`stored, can`bus, can.rx`head, can.rx.slots
      ensures Offering(f) && taken == Takes(can.clients, i, f, turn, events)
      ensures can.rx.Valid() && can.rx.Capacity() == old(can.rx.Capacity())
      ensures can.View() == Arrive(old(can.View()), events.arrive(turn, 2 + i), can.rx.Capacity())
      ensures !taken ==> stream.AllOffered() == old(stream.AllOffered())
      ensures taken ==> stream.AllOffered() == old(stream.AllOffered()) + stream.Own(f)
    {
      hide Data, Keep, Carried, Frames, Missing, IsValidSetup, Arrive, Until, Total;
      NotTakenBefore(f, i, turn, events);
      Units(stream.AllOffered());
      ArriveAdds(can.View(), events.arrive(turn, 2 + i), can.rx.Capacity());
      can.Interrupt(events.arrive(turn, 2 + i));
      assert can.rx.slots[slot] == can.rx.slots[can.rx.Wrap(can.rx.tail + 0)] == can.rx.Contents()[0] == f;
      taken := Receive(i, can.rx.slots[slot], turn, events, calls);
    }

    lemma DeliveredMore(before: seq<Delivery>, d: Delivery, offered: seq<Frame>)
      requires can.delivered == before + [d]
      requires Carried(Frames(before), stream.rxId, stream.flags.extended) == offered
      requires stream.AllOffered() == offered + stream.Own(d.frame)
      ensures ReceiveAccount()
    {
      assert Frames(before + [d]) == Frames(before) + [d.frame];
      CarriedNext(Frames(before), d.frame, stream.rxId, stream.flags.extended);
      Units(offered);
    }

    /** What a turn of the receive loop does: what it finds, and then what it leaves. */
    ghost predicate Turned(s: Rx, before: seq<Delivery>, turn: nat, events: Events, done: bool)
      requires can.rx.Valid()
      reads can`delivered, can`clients, can`bus, can`heard, can`stored, can.rx, can.rx.slots
    {
      var look := Arrive(s, events.arrive(turn, 0), can.rx.Capacity());
      if look.queue == [] then
        done && can.delivered == before && can.View() == Arrive(look, events.arrive(turn, 1), can.rx.Capacity())
      else
        && !done && can.View() == AfterTurn(s, turn, can.rx.Capacity(), can.clients, events)
        && can.delivered == before + [Taken(look.queue[0], turn, events)]
    }

    lemma RanOn(start: seq<Delivery>, goal: Run, s: Rx, before: seq<Delivery>, turn: nat, events: Events,
                done: bool)
      requires can.rx.Valid() && turn < can.rx.Capacity()
      requires Turned(s, before, turn, events, done)
      requires RunFrom(start, goal, s, before, turn, can.rx.Capacity(), can.clients, events)
      ensures if done then start + goal.delivered == can.delivered && goal.rx == can.View()
              else RunFrom(start, goal, can.View(), can.delivered, turn + 1, can.rx.Capacity(), can.clients, events)
    {
      var rest := RunRx(s, turn, can.rx.Capacity(), can.clients, events);
      if done {
        Units(before);
      } else {
        MoveHead(before, rest.delivered);
      }
    }

    /** One turn of the receive loop. */
    method ReceiveOne(turn: nat, events: Events, calls: nat -> Parse) returns (done: bool)
      requires Left(events) && Receives() && can.rx.Valid()
      modifies stream`rxBuffer, stream`rxLost, stream`handed, stream`passed, stream`offered, stream`fate, stream`dropped
      modifies can`delivered, can`rxLost, can`heard, can`stored, can`bus, can.rx, can.rx.slots
      ensures Receives() && can.rx.Valid() && can.rx.Capacity() == old(can.rx.Capacity())
      ensures Turned(old(can.View()), old(can.delivered), turn, events, done)
    {
      hide Receives, Arrive, Turned, AfterTurn, Handled, Left;
      HandleSetup();
      ghost var s, before := can.View(), can.delivered;
      var slot;
      done, slot := Look(events.arrive(turn, 0), events.arrive(turn, 1));
      ghost var look, found := Arrive(s, events.arrive(turn, 0), can.rx.Capacity()), can.View();
      if done {
        FoundNothing(s, look, before, turn, events);
      } else {
        TurnIsHandled(s, look, found, turn, can.rx.Capacity(), can.clients, events);
        Handle(slot, turn, events, calls);
        TurnedIs(s, look, before, turn, events);
      }
    }

    lemma FoundNothing(s: Rx, look: Rx, before: seq<Delivery>, turn: nat, events: Events)
      requires can.rx.Valid() && look == Arrive(s, events.arrive(turn, 0), can.rx.Capacity()) && look.queue == []
      requires can.View() == Arrive(look, events.arrive(turn, 1), can.rx.Capacity()) && can.delivered == before
      ensures Turned(s, before, turn, events, true)
    {
    }

    lemma TurnedIs(s: Rx, look: Rx, before: seq<Delivery>, turn: nat, events: Events)
      requires can.rx.Valid() && look == Arrive(s, events.arrive(turn, 0), can.rx.Capacity()) && look.queue != []
      requires can.View() == AfterTurn(s, turn, can.rx.Capacity(), can.clients, events)
      requires can.delivered == before + [Taken(look.queue[0], turn, events)]
      ensures Turned(s, before, turn, events, false)
    {
    }

    /** The look at the queue. */
    method Look(first: nat, between: nat) returns (empty: bool, slot: nat)
      requires Receives() && can.rx.Valid()
      modifies can`rxLost, can`heard, can`stored, can`bus, can.rx`head, can.rx.slots
      ensures Receives() && can.rx.Valid() && can.rx.Capacity() == old(can.rx.Capacity()) && slot == can.rx.tail
      ensures var look := Arrive(old(can.View()), first, can.rx.Capacity());
              can.View() == Arrive(look, between, can.rx.Capacity()) && empty == (look.queue == [])
    {
      hide Receives, Can.Receiving, Can.DistinctClients, CanStream.RxValid, Listed, ReceiveAccount, Arrive;
      HandleSetup();
      empty, slot := can.PeekRx(first, between);
      ReceivesAgain();
    }

    /** The frame at the head of the queue is offered and removed. */
    method Handle(slot: nat, turn: nat, events: Events, calls: nat -> Parse)
      requires Left(events) && Receives() && can.rx.Valid() && slot == can.rx.tail && can.rx.Contents() != []
      modifies stream`rxBuffer, stream`rxLost, stream`handed, stream`passed, stream`offered, stream`fate, stream`dropped
      modifies can`delivered, can`rxLost, can`heard, can`stored, can`bus, can.rx, can.rx.slots
      ensures Receives() && can.rx.Valid() && can.rx.Capacity() == old(can.rx.Capacity())
      ensures can.View() == Handled(old(can.View()), turn, can.rx.Capacity(), can.clients, events)
      ensures can.delivered == old(can.delivered) + [Taken(old(can.rx.Contents()[0]), turn, events)]
    {
      hide Carried, Arrive, Until, FirstTaker, LastPoint, Listed, Receives, ReceiveAccount, Offering, Offered, Removed,
           Handled, Can.Receiving, Can.DistinctClients, CanStream.RxValid;
      HandleSetup();
      var f := HeadOf(slot);
      var last := LastPoint(can.clients, f, turn, events);
      ghost var s, before, offered := can.View(), can.delivered, stream.AllOffered();
      var taker := Offer(slot, f, turn, events, calls);
      OfferedIs(f, taker, s, offered, turn, events);
      ghost var end := Arrive(can.View(), events.arrive(turn, last), can.rx.Capacity());
      can.Deliver(taker, events.arrive(turn, last));
      HandledIs(s, f, last, end, turn, can.rx.Capacity(), can.clients, events);
      DeliveredMore(before, Delivery(f, taker), offered);
      ReceivesAgain();
    }

    /** The delivery of a frame to the first client that takes it. */
    function Taken(f: Frame, turn: nat, events: Events): Delivery
      reads can`clients
    {
      Delivery(f, FirstTaker(can.clients, f, 0, turn, events))
    }

    lemma OfferedIs(f: Frame, taker: Option<nat>, s: Rx, offered: seq<Frame>, turn: nat, events: Events)
      requires can.rx.Valid() && Offering(f) && Offered(f, taker, s, offered, turn, events)
      ensures taker == FirstTaker(can.clients, f, 0, turn, events) && stream.AllOffered() == offered + stream.Own(f)
      ensures can.View() == Until(s, turn, events, LastPoint(can.clients, f, turn, events), can.rx.Capacity())
      ensures can.Receiving() && stream.RxValid() && can.rx.Contents() != [] && can.rx.Contents()[0] == f
      ensures Listed(can.clients, place, stream.rxId, stream.flags.extended)
    {
    }

    lemma HandleSetup()
      requires Receives()
      ensures can.rx.Valid() && |can.stored| == |can.heard| && |can.rx.Contents()| <= can.rx.Capacity()
      ensures ReceiveAccount() && place < |can.clients|
      ensures Carried(Frames(can.delivered), stream.rxId, stream.flags.extended) == stream.AllOffered()
      ensures can.Receiving() && stream.RxValid() && can.DistinctClients()
      ensures Listed(can.clients, place, stream.rxId, stream.flags.extended)
      ensures can.rx.Contents() != [] ==> Offering(can.rx.Contents()[0])
    {
    }

    lemma ReceivesAgain()
      requires can.Receiving() && stream.RxValid() && ReceiveAccount()
      requires can.DistinctClients() && Listed(can.clients, place, stream.rxId, stream.flags.extended)
      ensures Receives()
    {
    }

    method HeadOf(slot: nat) returns (f: Frame)
      requires can.rx.Valid() && can.rx.Contents() != [] && slot == can.rx.tail
      ensures f == can.rx.Contents()[0]
    {
      assert can.rx.slots[slot] == can.rx.slots[can.rx.Wrap(can.rx.tail + 0)] == can.rx.Contents()[0];
      f := can.rx.slots[slot];
    }

    /** The receive loop: exactly the run that the arrivals make. */
    method RunLoop(events: Events, calls: nat -> nat -> Parse)
      requires Left(events) && Receives() && can.rx.Valid()
      modifies stream`rxBuffer, stream`rxLost, stream`handed, stream`passed, stream`offered, stream`fate, stream`dropped
      modifies can`delivered, can`rxLost, can`heard, can`stored, can`bus, can.rx, can.rx.slots
      ensures Receives() && can.rx.Valid() && can.rx.Capacity() == old(can.rx.Capacity())
      ensures var run := RunRx(old(can.View()), 0, can.rx.Capacity(), can.clients, events);
              can.delivered == old(can.delivered) + run.delivered && can.View() == run.rx
    {
      hide RunRx, RunFrom, Turned, Receives, Left;
      var count: nat := can.rx.Capacity();
      var turn: nat := 0;
      var done := false;
      RunStarts(can.View(), can.delivered, can.rx.Capacity(), can.clients, events);
      ghost var goal := RunRx(can.View(), 0, can.rx.Capacity(), can.clients, events);
      while count > 0 && !done
        invariant Receives() && can.rx.Valid() && can.rx.Capacity() == old(can.rx.Capacity()) == turn + count
        invariant if done then old(can.delivered) + goal.delivered == can.delivered && goal.rx == can.View()
                  else RunFrom(old(can.delivered), goal, can.View(), can.delivered, turn, can.rx.Capacity(),
                               can.clients, events)
        decreases count, !done
      {
        ghost var s, before := can.View(), can.delivered;
        count := count - 1;
        done := ReceiveOne(turn, events, calls(turn));
        RanOn(old(can.delivered), goal, s, before, turn, events, done);
        turn := turn + 1;
      }
      if !done {
        RunEnds(old(can.delivered), goal, can.View(), can.delivered, turn, can.rx.Capacity(), can.clients, events);
      }
    }

    /** _doRxTask: the loop, and then evt_rx_done, in which the stream lets its client read. calls is what that client
        does, for each frame and at the end. */
    method DoRxTask(events: Events, calls: nat -> nat -> Parse, doneCalls: nat -> Parse)
      requires Left(events) && Receives()
      modifies stream`rxBuffer, stream`rxLost, stream`handed, stream`passed, stream`offered, stream`fate, stream`dropped
      modifies can`delivered, can`rxLost, can`heard, can`stored, can`bus, can.rx, can.rx.slots
      ensures Receives() && can.rx.Capacity() == old(can.rx.Capacity())
      ensures var run := RunRx(old(can.View()), 0, can.rx.Capacity(), can.clients, events);
              can.delivered == old(can.delivered) + run.delivered && can.View() == run.rx
      ensures can.heard + can.bus == old(can.heard + can.bus)
    {
      hide RunRx, Receives, Left;
      HandleSetup();
      RunHears(can.View(), 0, can.rx.Capacity(), can.clients, events);
      RunLoop(events, calls);
      ClientReads(doneCalls);
    }

    /** Interrupts while no task of the node runs. */
    method Hear(n: nat)
      requires Receives()
      modifies can`rxLost, can`heard, can`stored, can`bus, can.rx`head, can.rx.slots
      ensures Receives() && can.heard + can.bus == old(can.heard + can.bus)
    {
      hide Receives, Can.Receiving, Can.DistinctClients, CanStream.RxValid, Listed, ReceiveAccount, Arrive;
      HandleSetup();
      ArriveAdds(can.View(), n, can.rx.Capacity());
      can.Interrupt(n);
      ReceivesAgain();
    }

    /** Other frames come onto the bus, or the frames there change places. */
    method ChangeBus(bus: seq<Frame>)
      requires Receives() && forall i :: 0 <= i < |bus| ==> bus[i].Length() <= MAX_DATA
      modifies can`bus
      ensures Receives() && can.bus == bus
    {
      can.bus := bus;
    }

    /** The stream's client reads some bytes. */
    method Read(count: nat) returns (data: seq<byte>)
      requires Receives()
      modifies stream`rxBuffer, stream`handed
      ensures Receives() && stream.handed == old(stream.handed) + data
    {
      hide Listed, Carried, Can.Receiving;
      data := stream.ActReceive(count);
    }

    /** A client of the stream is attached, with the functions it has, or detached. */
    method SetClient(parses: bool, sends: bool)
      requires Valid()
      modifies stream`parses, stream`sends, stream`txLength, stream`rxBuffer, stream`sentBefore, stream`queued,
               stream`accepted, stream`passed, stream`offered, stream`fate, stream`handed, stream`droppedBefore
      ensures Valid() && stream.parses == parses && stream.sends == sends
    {
      hide Listed, Carried, Can.Receiving, Can.Sending;
      stream.SetClient(parses, sends);
    }

    /** Another client comes to the end of the list. */
    method AddClient(c: Client) returns (ok: bool)
      requires Receives() && c.Other?
      modifies can`clients
      ensures Receives()
    {
      hide Carried, Can.Receiving, CanStream.RxValid;
      ok := can.AddClient(c);
    }

    /** Another client leaves the list. */
    method RemoveClient(id: nat)
      requires Receives() && id != STREAM
      modifies can`clients, `place
      ensures Receives()
    {
      hide Carried, Can.Receiving, CanStream.RxValid;
      ghost var before := can.clients;
      ghost var at := can.RemoveClient(id);
      ListedWithout(before, place, at, stream.rxId, stream.flags.extended);
      place := if at < place then place - 1 else place;
    }

    /** The stream's client reads as it likes. */
    method ClientReads(calls: nat -> Parse)
      requires Receives()
      modifies stream`rxBuffer, stream`handed
      ensures Receives()
    {
      hide CalledFor, AskedFor, Listed, Carried, Can.Receiving;
      ghost var n;
      var emptied;
      emptied, n := stream.DoParse(calls);
    }
  }

  /** A node with nothing sent or heard yet. */
  method NewNode(rxCount: nat, txCount: nat, others: seq<Client>, txId: nat, rxId: nat, flags: Flags, frameSize: nat,
                 rxSize: nat) returns (node: Node)
    requires 0 < rxCount < 0xFFFF && 0 < txCount < 0xFFFF
    requires IsValidSetup(txId, rxId, flags, frameSize, rxSize) && Before(others)
    ensures node.Valid() && fresh(node) && fresh(node.can) && fresh(node.can.rx) && fresh(node.can.rx.slots)
    ensures fresh(node.can.tx) && fresh(node.can.tx.slots) && fresh(node.stream) && fresh(node.stream.txData)
    ensures node.stream.txId == txId && node.stream.rxId == rxId && node.stream.flags == flags
    ensures node.can.heard == [] && node.can.bus == [] && node.can.transmitted == []
  {
    hide Listed, Before, Can.Receiving, Can.Sending, CanStream.TxValid, CanStream.RxValid, IsValidSetup;
    var can := new Can(rxCount, txCount);
    can.clients := others;
    var stream := new CanStream(can, txId, rxId, flags, frameSize, rxSize);
    node := new Node(can, stream, others);
  }
}
