/** Two nodes of a CAN bus and a stream between them, each way: whatever the nodes, their clients and the bus do, the
    bytes read at one end are those written at the other, with whole frames missing where a buffer was full. */
module CanLink {
  import opened Bits
  import opened Seqs
  import opened CanFrames
  import opened Marked
  import opened CanData
  import opened CanRuns
  import opened CanCounts
  import opened CanStream
  import opened CanNode

  /** The way from x to y: of the frames with bytes for the stream, those that x has handed to its hardware are those
      that y has heard and those on their way there, in order. */
  ghost predicate Way(x: Node, y: Node)
    reads x.can`transmitted, y.can`heard, y.can`bus
  {
    && x.stream.txId == y.stream.rxId && x.stream.flags.extended == y.stream.flags.extended
    && Carried(x.can.transmitted, x.stream.txId, x.stream.flags.extended)
       == Carried(y.can.heard + y.can.bus, x.stream.txId, x.stream.flags.extended)
  }

  /** Two nodes with nothing in common but the bus, and a stream between them each way. */
  ghost predicate Linked(x: Node, y: Node)
    reads x.Repr(), y.Repr()
  {
    && x.Repr() !! y.Repr()
    && x.Valid() && y.Valid() && Way(x, y) && Way(y, x)
  }

  // ---------------------------------------------------------------- what holds in every state

  /** The frames kept for the client of y, of all those that x has queued. */
  lemma {:induction false} KeptOfQueued(x: Node, y: Node) returns (marks: seq<bool>)
    requires Linked(x, y)
    ensures |marks| == |x.stream.AllQueued()|
    ensures Keep(y.stream.offered, y.stream.fate) == Keep(x.stream.AllQueued(), marks)
  {
    var id, extended := x.stream.txId, x.stream.flags.extended;
    var heard, bus := Carried(y.can.heard, id, extended), Carried(y.can.bus, id, extended);
    var tx, rx := Carried(x.can.tx.Contents(), id, extended), Carried(y.can.rx.Contents(), id, extended);
    SentParts(x, y);
    var fate := AllFalse(|y.stream.passed|) + y.stream.fate;
    KeepLater(y.stream.passed, y.stream.offered, y.stream.fate);
    var stored := CarriedOfKept(y.can.heard, y.can.stored, id, extended);
    HeardParts(y);
    KeepNoMore(y.stream.AllOffered(), rx, fate);
    var both := KeepTwice(heard, stored, fate + AllFalse(|rx|));
    KeepNoMore(heard, bus + tx, both);
    marks := both + AllFalse(|bus + tx|);
  }

  lemma SentParts(x: Node, y: Node)
    requires x.Sends() && Way(x, y)
    ensures var id, extended := x.stream.txId, x.stream.flags.extended;
            x.stream.AllQueued() == Carried(y.can.heard, id, extended)
                                    + (Carried(y.can.bus, id, extended) + Carried(x.can.tx.Contents(), id, extended))
  {
    var id, extended := x.stream.txId, x.stream.flags.extended;
    CarriedConcat(x.can.transmitted, x.can.tx.Contents(), id, extended);
    CarriedConcat(y.can.heard, y.can.bus, id, extended);
    Assoc(Carried(y.can.heard, id, extended), Carried(y.can.bus, id, extended),
          Carried(x.can.tx.Contents(), id, extended));
  }

  lemma HeardParts(y: Node)
    requires y.Receives()
    ensures var id, extended := y.stream.rxId, y.stream.flags.extended;
            |y.can.stored| == |y.can.heard|
            && Carried(Keep(y.can.heard, y.can.stored), id, extended)
               == y.stream.AllOffered() + Carried(y.can.rx.Contents(), id, extended)
  {
    CarriedConcat(Frames(y.can.delivered), y.can.rx.Contents(), y.stream.rxId, y.stream.flags.extended);
  }

  /** The bytes the client of y has read or can read are those of some of the frames x has queued: whole, once each
      and in order; and what the client of x has written is in frames queued or pending. */
  ghost predicate OnlyWholeFrames(x: Node, y: Node, marks: seq<bool>)
    reads x.Repr(), y.Repr()
  {
    && |marks| == |x.stream.AllQueued()|
    && y.stream.handed + y.stream.rxBuffer == Data(Keep(x.stream.AllQueued(), marks))
    && x.stream.txLength <= x.stream.txData.Length
    && x.stream.accepted == Data(x.stream.queued) + x.stream.txData[..x.stream.txLength]
  }

  /** Main result, of every state two linked nodes get into. */
  lemma ReaderGetsWholeFrames(x: Node, y: Node) returns (marks: seq<bool>)
    requires Linked(x, y)
    ensures OnlyWholeFrames(x, y, marks)
  {
    marks := KeptOfQueued(x, y);
  }

  /** And as long as no frame found a buffer full since the client of y was attached, every byte is accounted for: sent
      for earlier clients of x or written by the present one, it has gone to an earlier client of y, or is read, ready
      to be read, in the receive queue, on the bus, in the send queue or pending, in this order. So if both are the
      first clients, what is read is the beginning of what was written. */
  lemma NothingLostNothingMissing(x: Node, y: Node)
    requires Linked(x, y) && Missing(y.can.stored) == 0 && AllSet(y.stream.fate)
    ensures var id, extended := x.stream.txId, x.stream.flags.extended;
            && Data(x.stream.sentBefore) + x.stream.accepted
               == Data(y.stream.passed) + (y.stream.handed + y.stream.rxBuffer)
                  + Data(Carried(y.can.rx.Contents(), id, extended)) + Data(Carried(y.can.bus, id, extended))
                  + Data(Carried(x.can.tx.Contents(), id, extended)) + x.stream.txData[..x.stream.txLength]
            && (x.stream.sentBefore == [] && y.stream.passed == [] ==> y.stream.handed <= x.stream.accepted)
  {
    hide Carried, Keep, Data;
    var id, extended := x.stream.txId, x.stream.flags.extended;
    var bus, tx := Carried(y.can.bus, id, extended), Carried(x.can.tx.Contents(), id, extended);
    var rx, pending := Carried(y.can.rx.Contents(), id, extended), x.stream.txData[..x.stream.txLength];
    SentParts(x, y);
    HeardParts(y);
    NothingMissing(y.can.stored);
    KeepAll(y.can.heard, y.can.stored);
    KeepAll(y.stream.offered, y.stream.fate);
    DataConcat(x.stream.sentBefore, x.stream.queued);
    DataConcat(y.stream.passed, y.stream.offered);
    DataConcat(y.stream.AllOffered(), rx);
    DataConcat(y.stream.AllOffered() + rx, bus + tx);
    DataConcat(bus, tx);
    Assoc(Data(x.stream.sentBefore), Data(x.stream.queued), pending);
    var out := Data(y.stream.passed) + (y.stream.handed + y.stream.rxBuffer);
    Assoc(out + Data(rx), Data(bus), Data(tx));
    if x.stream.sentBefore == [] && y.stream.passed == [] {
      NoData();
      BeginsWith(y.stream.handed, y.stream.rxBuffer, Data(rx), Data(bus), Data(tx), pending);
    }
  }

  lemma BeginsWith(a: seq<byte>, b: seq<byte>, c: seq<byte>, d: seq<byte>, e: seq<byte>, f: seq<byte>)
    ensures a <= [] + (a + b) + c + d + e + f
  {
  }

  /** The bytes dropped since a client was attached are those of the frames offered that were not kept; the counter of
      the stream tells the bytes of all frames dropped so far, and that of the controller the frames lost, each up to
      multiples of 65536. */
  lemma LossesAreCounted(y: Node)
    requires y.Receives()
    ensures y.stream.dropped - y.stream.droppedBefore
            == |Data(y.stream.offered)| - |Data(Keep(y.stream.offered, y.stream.fate))|
    ensures y.stream.rxLost == y.stream.dropped % 0x1_0000
    ensures y.can.rxLost == Missing(y.can.stored) % 0x1_0000
    ensures |y.can.delivered| + |y.can.rx.Contents()| + Missing(y.can.stored) == |y.can.heard|
  {
    KeptAndMissing(y.can.heard, y.can.stored);
  }

  // ---------------------------------------------------------------- steps

  /** What a node, its clients and the bus before it can do, at any time and in any order. Steps of the one node that
      come while a task of the other runs are steps before it: they touch nothing the task reads but frames that come
      to the end of the bus. Interrupts, which do touch what the receive task reads, come within it, where its arrivals
      say, or between tasks. */
  datatype Step =
    | Write(data: seq<byte>)
    | TxTask(writes: seq<seq<byte>>, sends: nat -> seq<Frame>, answers: seq<bool>)
    | OthersSend(frames: seq<Frame>)
    | RxTask(events: Events, calls: nat -> nat -> Parse, doneCalls: nat -> Parse)
    | Hear(most: nat)
    | Read(count: nat)
    | SetClient(parses: bool, asks: bool)   // neither of them when a client is detached
    | AddClient(client: Client)
    | RemoveClient(id: nat)
    | SetBusOff(off: bool)
    | Foreign(frame: Frame, place: nat)   // a frame of a third node comes onto the bus
    | Overtake(place: nat)                // two frames on the bus change places, but not two of the stream

  /** Under the two IDs of the streams no client but these sends or takes frames with bytes, and no other node sends
      any. */
  ghost predicate Allowed(x: Node, step: Step) {
    var txId, rxId, extended := x.stream.txId, x.stream.rxId, x.stream.flags.extended;
    match step
    case TxTask(_, sends, _) => forall i :: NoneCarries(sends(i), txId, extended)
    case OthersSend(frames) => NoneCarries(frames, txId, extended)
    case RxTask(events, _, _) => LeftToStream(events, rxId, extended)
    case AddClient(client) => client.Other?
    case RemoveClient(id) => id != STREAM
    case Foreign(frame, _) => !Carries(frame, rxId, extended) && frame.Length() <= MAX_DATA
    case _ => true
  }

  lemma Separate(x: Node, y: Node)
    requires x.Repr() !! y.Repr()
    ensures x != y && x.can != y.can && x.stream != y.stream && x.stream.txData != y.stream.txData
    ensures x.can.rx != y.can.rx && x.can.rx != y.can.tx && x.can.tx != y.can.rx && x.can.tx != y.can.tx
    ensures x.can.rx.slots != y.can.rx.slots && x.can.rx.slots != y.can.tx.slots
    ensures x.can.tx.slots != y.can.rx.slots && x.can.tx.slots != y.can.tx.slots
  {
    assert {x.can, x.can.rx, x.can.rx.slots, x.can.tx, x.can.tx.slots, x.stream, x.stream.txData, x} <= x.Repr();
    assert {y.can, y.can.rx, y.can.rx.slots, y.can.tx, y.can.tx.slots, y.stream, y.stream.txData, y} <= y.Repr();
  }

  /** What the bus gets of a send task. */
  method RunTransmit(x: Node, writes: seq<seq<byte>>, sends: nat -> seq<Frame>, answers: seq<bool>)
      returns (taken: seq<Frame>)
    requires x.Sends() && Allowed(x, TxTask(writes, sends, answers))
    requires Listed(x.can.clients, x.place, x.stream.rxId, x.stream.flags.extended)
    modifies x.stream`txLength, x.stream`txWritten, x.stream`accepted, x.stream`queued, x.stream.txData
    modifies x.can`sent, x.can`transmitted, x.can.tx, x.can.tx.slots
    ensures x.Sends() && x.can.transmitted == old(x.can.transmitted) + taken
    ensures forall k :: 0 <= k < |taken| ==> taken[k].Length() <= MAX_DATA
  {
    hide Node.Sends, Listed, Asked;
    taken := x.DoTxTask(writes, sends, answers);
  }

  /** What x hands to its hardware comes to the end of the bus before y. */
  method RunTxTask(x: Node, y: Node, writes: seq<seq<byte>>, sends: nat -> seq<Frame>, answers: seq<bool>)
    requires Linked(x, y) && Allowed(x, TxTask(writes, sends, answers))
    modifies x.stream`txLength, x.stream`txWritten, x.stream`accepted, x.stream`queued, x.stream.txData
    modifies x.can`sent, x.can`transmitted, x.can.tx, x.can.tx.slots, y.can`bus
    ensures Linked(x, y)
  {
    hide Node.Sends, Node.Receives, Node.Repr, Carried, Listed;
    Separate(x, y);
    x.OwnParts();
    ghost var before := x.can.transmitted;
    var taken := RunTransmit(x, writes, sends, answers);
    ComesToBus(before, y.can.heard, y.can.bus, taken, x.stream.txId, x.stream.flags.extended);
    AddToBus(y, taken);
  }

  method RunRxTask(x: Node, y: Node, events: Events, calls: nat -> nat -> Parse, doneCalls: nat -> Parse)
    requires Linked(x, y) && Allowed(x, RxTask(events, calls, doneCalls))
    modifies x.stream`rxBuffer, x.stream`rxLost, x.stream`handed, x.stream`passed, x.stream`offered, x.stream`fate
    modifies x.stream`dropped, x.can`delivered, x.can`rxLost, x.can`heard, x.can`stored, x.can`bus, x.can.rx
    modifies x.can.rx.slots
    ensures Linked(x, y)
  {
    hide Node.Sends, Node.Receives, Node.Repr, Carried, Listed;
    Separate(x, y);
    x.OwnParts();
    x.DoRxTask(events, calls, doneCalls);
  }

  method RunInterrupts(x: Node, y: Node, most: nat)
    requires Linked(x, y)
    modifies x.can`rxLost, x.can`heard, x.can`stored, x.can`bus, x.can.rx`head, x.can.rx.slots
    ensures Linked(x, y)
  {
    hide Node.Sends, Node.Receives, Node.Repr, Carried, Listed;
    Separate(x, y);
    x.OwnParts();
    x.Hear(most);
  }

  /** Steps that concern the queues and the list of clients of one node. */
  method RunSend(x: Node, y: Node, step: Step)
    requires Linked(x, y) && Allowed(x, step) && (step.Write? || step.OthersSend?)
    modifies x.stream`txLength, x.stream`txWritten, x.stream`accepted, x.stream`queued, x.stream.txData
    modifies x.can`sent, x.can.tx`head, x.can.tx.slots
    ensures Linked(x, y)
  {
    hide Node.Sends, Node.Receives, Node.Repr, Carried, Listed;
    Separate(x, y);
    x.OwnParts();
    match step
    case Write(data) => var sent := x.Write(data);
    case OthersSend(frames) => x.OthersSend(frames);
  }

  method RunClient(x: Node, y: Node, step: Step)
    requires Linked(x, y) && Allowed(x, step)
    requires step.Read? || step.SetClient? || step.AddClient? || step.RemoveClient? || step.SetBusOff?
    modifies x.stream`parses, x.stream`sends, x.stream`txLength, x.stream`rxBuffer, x.stream`sentBefore, x.stream`queued
    modifies x.stream`accepted, x.stream`passed, x.stream`offered, x.stream`fate, x.stream`handed
    modifies x.stream`droppedBefore, x.can`clients, x.can`busOff, x`place
    ensures Linked(x, y)
  {
    hide Node.Sends, Node.Receives, Node.Repr, Carried, Listed;
    Separate(x, y);
    x.OwnParts();
    match step
    case Read(count) => var data := x.Read(count);
    case SetClient(parses, asks) => x.SetClient(parses, asks);
    case AddClient(client) => var ok := x.AddClient(client);
    case RemoveClient(id) => x.RemoveClient(id);
    case SetBusOff(off) => x.can.busOff := off;
  }

  /** A frame of a third node comes onto the bus before x. */
  method RunForeign(x: Node, y: Node, frame: Frame, place: nat)
    requires Linked(x, y) && Allowed(x, Foreign(frame, place))
    modifies x.can`bus
    ensures Linked(x, y)
  {
    hide Node.Sends, Node.Receives, Node.Repr, Carried, Listed;
    Separate(x, y);
    x.OwnParts();
    var bus := x.can.bus;
    var p := if place < |bus| then place else |bus|;
    SplitAt(bus, p);
    ForeignComes(x.can.heard, bus[..p], frame, bus[p..], x.stream.rxId, x.stream.flags.extended);
    x.ChangeBus(bus[..p] + [frame] + bus[p..]);
  }

  /** Two frames on the bus before x change places. */
  method RunOvertake(x: Node, y: Node, place: nat)
    requires Linked(x, y)
    modifies x.can`bus
    ensures Linked(x, y)
  {
    hide Node.Sends, Node.Receives, Node.Repr, Carried, Listed;
    Separate(x, y);
    x.OwnParts();
    var bus := x.can.bus;
    if place + 1 < |bus| && !(x.stream.Mine(bus[place]) && x.stream.Mine(bus[place + 1])) {
      var f, g := bus[place], bus[place + 1];
      assert bus == bus[..place] + [f] + [g] + bus[place + 2..];
      FramesSwap(x.can.heard, bus[..place], f, g, bus[place + 2..], x.stream.rxId, x.stream.flags.extended);
      x.ChangeBus(bus[..place] + [g] + [f] + bus[place + 2..]);
    }
  }

  lemma ForeignComes(heard: seq<Frame>, a: seq<Frame>, f: Frame, b: seq<Frame>, id: nat, extended: bool)
    requires !Carries(f, id, extended)
    ensures Carried(heard + (a + [f] + b), id, extended) == Carried(heard + (a + b), id, extended)
  {
    CarriedConcat(heard, a + [f] + b, id, extended);
    CarriedConcat(heard, a + b, id, extended);
    CarriedConcat(a + [f], b, id, extended);
    CarriedConcat(a, b, id, extended);
    CarriedNext(a, f, id, extended);
    Units(Carried(a, id, extended));
  }

  lemma FramesSwap(heard: seq<Frame>, a: seq<Frame>, f: Frame, g: Frame, b: seq<Frame>, id: nat, extended: bool)
    requires !(Carries(f, id, extended) && Carries(g, id, extended))
    ensures Carried(heard + (a + [f] + [g] + b), id, extended) == Carried(heard + (a + [g] + [f] + b), id, extended)
  {
    CarriedConcat(heard, a + [f] + [g] + b, id, extended);
    CarriedConcat(heard, a + [g] + [f] + b, id, extended);
    CarriedConcat(a + [f] + [g], b, id, extended);
    CarriedConcat(a + [g] + [f], b, id, extended);
    CarriedNext(a, f, id, extended);
    CarriedNext(a, g, id, extended);
    CarriedNext(a + [f], g, id, extended);
    CarriedNext(a + [g], f, id, extended);
    Units(Carried(a, id, extended));
    Units(Carried(a, id, extended) + [f]);
    Units(Carried(a, id, extended) + [g]);
  }

  method AddToBus(y: Node, frames: seq<Frame>)
    requires y.Receives() && forall i :: 0 <= i < |frames| ==> frames[i].Length() <= MAX_DATA
    modifies y.can`bus
    ensures y.Receives() && y.can.bus == old(y.can.bus) + frames
  {
    y.ChangeBus(y.can.bus + frames);
  }

  lemma ComesToBus(before: seq<Frame>, heard: seq<Frame>, bus: seq<Frame>, taken: seq<Frame>, id: nat, extended: bool)
    requires Carried(before, id, extended) == Carried(heard + bus, id, extended)
    ensures Carried(before + taken, id, extended) == Carried(heard + (bus + taken), id, extended)
  {
    Assoc(heard, bus, taken);
    CarriedConcat(before, taken, id, extended);
    CarriedConcat(heard + bus, taken, id, extended);
  }

  // ---------------------------------------------------------------- runs

  /** One step of x. */
  method RunStep(x: Node, y: Node, step: Step)
    requires Linked(x, y) && Allowed(x, step)
    modifies x.Repr(), y.can`bus
    ensures Linked(x, y)
  {
    hide Linked, Allowed;
    match step
    case TxTask(writes, sends, answers) => RunTxTask(x, y, writes, sends, answers);
    case RxTask(events, calls, doneCalls) => RunRxTask(x, y, events, calls, doneCalls);
    case Hear(most) => RunInterrupts(x, y, most);
    case Write(_) => RunSend(x, y, step);
    case OthersSend(_) => RunSend(x, y, step);
    case Foreign(frame, place) => RunForeign(x, y, frame, place);
    case Overtake(place) => RunOvertake(x, y, place);
    case _ => RunClient(x, y, step);
  }

  datatype Turn = Turn(first: bool, step: Step)   // a step of the first node or of the second one

  lemma LinkedBack(x: Node, y: Node)
    requires Linked(x, y)
    ensures Linked(y, x)
  {
  }

  /** Main result: from nodes as pifCan_Init and pifCanStream_Init leave them, any steps in any order lead to a state in
      which, each way, the bytes read and ready to be read are those of whole frames of what was written, once each and
      in order. */
  method Run(first: Node, second: Node, turns: seq<Turn>) returns (ghost there: seq<bool>, ghost back: seq<bool>)
    requires Linked(first, second)
    requires forall i :: 0 <= i < |turns| ==> Allowed(if turns[i].first then first else second, turns[i].step)
    modifies first.Repr(), second.Repr()
    ensures Linked(first, second)
    ensures OnlyWholeFrames(first, second, there) && OnlyWholeFrames(second, first, back)
  {
    hide Linked, Allowed, OnlyWholeFrames;
    for i := 0 to |turns|
      invariant Linked(first, second)
    {
      LinkedBack(first, second);
      if turns[i].first {
        RunStep(first, second, turns[i].step);
      } else {
        RunStep(second, first, turns[i].step);
        LinkedBack(second, first);
      }
    }
    there := ReaderGetsWholeFrames(first, second);
    LinkedBack(first, second);
    back := ReaderGetsWholeFrames(second, first);
  }

  /** Two new nodes on a bus, with other clients in their lists already. */
  method NewLink(rxCount: nat, txCount: nat, others: seq<Client>, otherRxCount: nat, otherTxCount: nat,
                 otherOthers: seq<Client>, id: nat, otherId: nat, flags: Flags, frameSize: nat, rxSize: nat)
      returns (first: Node, second: Node)
    requires 0 < rxCount < 0xFFFF && 0 < txCount < 0xFFFF && 0 < otherRxCount < 0xFFFF && 0 < otherTxCount < 0xFFFF
    requires IsValidSetup(id, otherId, flags, frameSize, rxSize) && Before(others)
    requires IsValidSetup(otherId, id, flags, frameSize, rxSize) && Before(otherOthers)
    ensures Linked(first, second) && fresh(first.Repr()) && fresh(second.Repr())
  {
    hide IsValidSetup, Before, Node.Sends, Node.Receives;
    first := NewNode(rxCount, txCount, others, id, otherId, flags, frameSize, rxSize);
    second := NewNode(otherRxCount, otherTxCount, otherOthers, otherId, id, flags, frameSize, rxSize);
  }
}
