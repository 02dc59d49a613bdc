/** source/communication/pif_can.c: the receive and send queues of a CAN controller. Received frames are put by an
    interrupt, which may come between any two steps of the receive task. */
module Can {
  import opened Options
  import opened Seqs
  import opened CanFrames
  import opened Marked
  import opened CanRuns
  import opened RingData

  /** _putQueue: the frame is complete before it is committed. */
  method PutQueue(queue: RingData<Frame>, f: Frame) returns (ok: bool)
    requires queue.Valid()
    modifies queue`head, queue.slots
    ensures queue.Valid() && ok == (|old(queue.Contents())| < queue.Capacity())
    ensures queue.Contents() == old(queue.Contents()) + (if ok then [f] else [])
  {
    var full, slot := queue.BeginAdd();
    if full {
      Units(queue.Contents());
      return false;
    }
    queue.WriteSlot(slot, f);
    queue.CommitAdd();
    ok := true;
  }

  lemma CountOn(a: nat, b: nat, sum: nat)
    requires sum == a + b
    ensures (a % 0x1_0000 + b) % 0x1_0000 == sum % 0x1_0000
  {
  }

  class Can {
    const rx: RingData<Frame>
    const tx: RingData<Frame>
    var clients: seq<Client>    // the linked list of clients, in its order
    var rxLost: nat             // a uint16_t
    var busOff: bool
    var bus: seq<Frame>         // frames of other nodes on their way here, in the order in which they come
    ghost var heard: seq<Frame>            // every frame of a legal length given to PutRxFrame
    ghost var stored: seq<bool>            // whether it found room
    ghost var delivered: seq<Delivery>     // every frame given to a client or to evt_receive
    ghost var sent: seq<Frame>             // every frame SendFrame took
    ghost var transmitted: seq<Frame>      // every frame the hardware took

    ghost predicate Apart() {
      rx != tx && rx.slots != tx.slots
    }

    /** The hardware hears no frame with more than 64 bytes. */
    ghost predicate LegalBus()
      reads `bus
    {
      forall i :: 0 <= i < |bus| ==> bus[i].Length() <= MAX_DATA
    }

    ghost function View(): Rx
      requires rx.Valid()
      reads `bus, `heard, `stored, rx, rx.slots
    {
      Rx(rx.Contents(), bus, heard, stored)
    }

    /** The frames kept so far are those delivered and those still in the queue. */
    ghost predicate Receiving()
      reads `bus, `heard, `stored, `delivered, `rxLost, rx, rx.slots
    {
      && Apart() && rx.Valid() && LegalBus()
      && Accounted(View(), Frames(delivered))
      && rxLost == Missing(stored) % 0x1_0000
    }

    /** No frame queued has more than 64 bytes. */
    ghost predicate LegalSent()
      reads `sent
    {
      forall i :: 0 <= i < |sent| ==> sent[i].Length() <= MAX_DATA
    }

    ghost predicate Sending()
      reads `sent, `transmitted, tx, tx.slots
    {
      Apart() && tx.Valid() && LegalSent() && sent == transmitted + tx.Contents()
    }

    constructor (rxCount: nat, txCount: nat)
      requires 0 < rxCount < 0xFFFF && 0 < txCount < 0xFFFF
      ensures Receiving() && Sending() && fresh(rx) && fresh(rx.slots) && fresh(tx) && fresh(tx.slots)
      ensures rx.Valid() && tx.Valid() && rx.Capacity() == rxCount && TxRemain() == tx.Capacity() == txCount
      ensures heard == [] && delivered == [] && sent == [] && transmitted == [] && bus == [] && clients == []
    {
      rx := new RingData(rxCount);
      tx := new RingData(txCount);
      clients, rxLost, busOff, bus := [], 0, false, [];
      heard, stored, delivered, sent, transmitted := [], [], [], [], [];
    }

    // -------------------------------------------------------------- receiving

    /** The accounts after one more frame. */
    method Account(f: Frame, ok: bool, ghost before: Rx)
      requires Apart() && rx.Valid() && LegalBus() && Accounted(before, Frames(delivered))
      requires rxLost == (Missing(before.stored) + (if ok then 0 else 1)) % 0x1_0000
      requires rx.Contents() == before.queue + (if ok then [f] else []) && bus == before.bus
      requires heard == before.heard && stored == before.stored
      modifies `heard, `stored
      ensures Receiving() && heard == before.heard + [f] && stored == before.stored + [ok]
    {
      hide Keep, Missing, Frames;
      heard, stored := heard + [f], stored + [ok];
      HeardAccounted(before, f, ok, Frames(delivered), View());
    }

    /** A frame of a legal length is kept if there is room, and counted if not. */
    method Hear(f: Frame) returns (ok: bool)
      requires Receiving()
      modifies `rxLost, `heard, `stored, rx`head, rx.slots
      ensures Receiving() && ok == (|old(rx.Contents())| < rx.Capacity())
      ensures rx.Contents() == old(rx.Contents()) + (if ok then [f] else [])
      ensures heard == old(heard) + [f] && stored == old(stored) + [ok]
    {
      hide Keep, Missing, Frames;
      ghost var before := View();
      ok := PutQueue(rx, f);
      if !ok {
        CountOn(Missing(stored), 1, Missing(stored) + 1);
        rxLost := (rxLost + 1) % 0x1_0000;
      }
      Account(f, ok, before);
    }

    /** pifCan_PutRxFrame, in an interrupt. It disturbs no frame that is already in the queue. */
    method PutRxFrame(f: Frame) returns (ok: bool)
      requires Receiving()
      modifies `rxLost, `heard, `stored, rx`head, rx.slots
      ensures Receiving()
      ensures ok == (f.Length() <= MAX_DATA && |old(rx.Contents())| < rx.Capacity())
      ensures rx.Contents() == old(rx.Contents()) + (if ok then [f] else [])
      ensures if f.Length() > MAX_DATA then heard == old(heard) && stored == old(stored)
              else heard == old(heard) + [f] && stored == old(stored) + [ok]
    {
      if f.Length() > MAX_DATA {
        Units(rx.Contents());
        return false;
      }
      ok := Hear(f);
    }

    /** The next frame on the bus comes in. */
    method HearOne()
      requires Receiving() && bus != []
      modifies `rxLost, `heard, `stored, `bus, rx`head, rx.slots
      ensures Receiving() && View() == ArriveOne(old(View()), rx.Capacity())
    {
      var ok := PutRxFrame(bus[0]);
      bus := bus[1..];
    }

    /** Interrupts that come between two steps of a task: n frames, as far as there are any on the bus. */
    method Interrupt(n: nat)
      requires Receiving()
      modifies `rxLost, `heard, `stored, `bus, rx`head, rx.slots
      ensures Receiving() && rx.Valid() && rx.Capacity() == old(rx.Capacity())
      ensures View() == Arrive(old(View()), n, rx.Capacity())
    {
      hide Accounted, Missing;
      var k: nat := n;
      while k > 0 && bus != []
        invariant Receiving() && k <= n && rx.Capacity() == old(rx.Capacity())
        invariant Arrive(View(), k, rx.Capacity()) == Arrive(old(View()), n, rx.Capacity())
      {
        HearOne();
        k := k - 1;
      }
    }

    /** _peekQueue in the receive task. An interrupt may come before the head is read, or after that and before the
        tail is: then the frames it puts are seen at the next look only. */
    method PeekRx(first: nat, between: nat) returns (empty: bool, slot: nat)
      requires Receiving()
      modifies `rxLost, `heard, `stored, `bus, rx`head, rx.slots
      ensures Receiving() && rx.Valid() && rx.Capacity() == old(rx.Capacity()) && slot == rx.tail
      ensures var look := Arrive(old(View()), first, rx.Capacity());
              View() == Arrive(look, between, rx.Capacity()) && empty == (look.queue == [])
    {
      Interrupt(first);
      var head := rx.head;
      assert rx.Contents() == [] <==> head == rx.tail;
      Interrupt(between);
      slot := rx.tail;
      empty := head == slot;
    }

    /** The frame leaves the queue for the client that took it, or for evt_receive. Interrupts may come before. */
    method Deliver(taker: Option<nat>, last: nat)
      requires Receiving() && rx.Contents() != []
      modifies `delivered, `rxLost, `heard, `stored, `bus, rx, rx.slots
      ensures Receiving() && delivered == old(delivered) + [Delivery(old(rx.Contents())[0], taker)]
      ensures var end := Arrive(old(View()), last, rx.Capacity());
              end.queue != [] && View() == Removed(end)
      ensures rx.Valid() && rx.Capacity() == old(rx.Capacity()) && clients == old(clients)
    {
      ghost var f := rx.Contents()[0];
      ArriveAdds(View(), last, rx.Capacity());
      Interrupt(last);
      DeliverOne(delivered, Delivery(f, taker), rx.Contents());
      delivered := delivered + [Delivery(f, taker)];
      rx.Remove();
    }

    // -------------------------------------------------------------- sending

    function TxRemain(): nat
      requires tx.Valid()
      reads tx
    {
      tx.Capacity() - tx.Count()
    }

    /** pifCan_SendFrame: a frame CAN does not know is refused, as is one that finds the queue full. */
    method SendFrame(f: Frame) returns (ok: bool)
      requires Sending()
      modifies `sent, tx`head, tx.slots
      ensures Sending() && ok == (CheckFrame(f) && |old(tx.Contents())| < tx.Capacity())
      ensures sent == old(sent) + (if ok then [f] else [])
      ensures tx.Contents() == old(tx.Contents()) + (if ok then [f] else [])
    {
      Units(sent);
      Units(tx.Contents());
      if !CheckFrame(f) {
        return false;
      }
      ghost var before := tx.Contents();
      ok := PutQueue(tx, f);
      if ok {
        Assoc(transmitted, before, [f]);
        sent := sent + [f];
      }
    }

    /** The send loop of _doTxTask: hands frames to the hardware, in order, until it takes no more. answers are what
        act_send_frame returns, FALSE once there are no more of them or without one. A refused frame stays queued. */
    method Transmit(answers: seq<bool>) returns (taken: seq<Frame>)
      requires Sending()
      modifies `transmitted, tx`tail
      ensures Sending() && transmitted == old(transmitted) + taken
      ensures old(tx.Contents()) == taken + tx.Contents()
      ensures |taken| <= |answers| && (forall k :: 0 <= k < |taken| ==> answers[k])
      ensures tx.Contents() != [] ==> |taken| == |answers| || !answers[|taken|]
      ensures forall k :: 0 <= k < |taken| ==> taken[k].Length() <= MAX_DATA
    {
      taken := [];
      Units(transmitted);
      while |taken| < |answers| && answers[|taken|] && tx.Count() != 0
        invariant |taken| <= |answers| && Sending() && forall i :: 0 <= i < |taken| ==> answers[i]
        invariant transmitted == old(transmitted) + taken
        decreases |answers| - |taken|
      {
        var f := TransmitOne();
        Assoc(old(transmitted), taken, [f]);
        taken := taken + [f];
      }
      TakenOff(old(transmitted), old(tx.Contents()), transmitted, tx.Contents());
      Parts(old(transmitted), taken);
      forall k | 0 <= k < |taken|
        ensures taken[k].Length() <= MAX_DATA
      {
        assert taken[k] == sent[|old(transmitted)| + k];
      }
    }

    /** The hardware takes the frame at the head of the queue. */
    method TransmitOne() returns (f: Frame)
      requires Sending() && tx.Contents() != []
      modifies `transmitted, tx`tail
      ensures Sending() && f == old(tx.Contents())[0] && transmitted == old(transmitted) + [f]
    {
      var found, slot := tx.GetData(0);
      MoveHead(transmitted, tx.Contents());
      f := tx.slots[slot];
      transmitted := transmitted + [f];
      tx.Remove();
    }

    // -------------------------------------------------------------- clients

    ghost predicate DistinctClients()
      reads `clients
    {
      forall i, j :: 0 <= i < j < |clients| ==> clients[i].id != clients[j].id
    }

    /** pifCan_AddClient: at the end of the list, unless it is there already. */
    method AddClient(c: Client) returns (ok: bool)
      requires DistinctClients()
      modifies `clients
      ensures DistinctClients() && ok == (forall i :: 0 <= i < |old(clients)| ==> old(clients)[i].id != c.id)
      ensures clients == if ok then old(clients) + [c] else old(clients)
    {
      for i := 0 to |clients|
        invariant forall k :: 0 <= k < i ==> clients[k].id != c.id
      {
        if clients[i].id == c.id {
          return false;
        }
      }
      clients := clients + [c];
      ok := true;
    }

    /** pifCan_RemoveClient: the others keep their order. */
    method RemoveClient(id: nat) returns (ghost at: nat)
      requires DistinctClients()
      modifies `clients
      ensures DistinctClients() && forall i :: 0 <= i < |clients| ==> clients[i].id != id
      ensures at <= |old(clients)| && (at < |old(clients)| ==> old(clients)[at].id == id)
      ensures clients == old(clients)[..at] + (if at < |old(clients)| then old(clients)[at + 1..] else [])
    {
      for i := 0 to |clients|
        invariant clients == old(clients) && forall k :: 0 <= k < i ==> clients[k].id != id
      {
        if clients[i].id == id {
          clients := clients[..i] + clients[i + 1..];
          return i;
        }
      }
      at := |clients|;
      Units(clients);
    }
  }

  lemma TakenOff<T>(a: seq<T>, b: seq<T>, c: seq<T>, d: seq<T>)
    requires a + b == c + d && a <= c
    ensures b == c[|a|..] + d
  {
    Parts(a, b);
    assert (c + d)[|a|..] == c[|a|..] + d;
  }

  lemma DeliverOne(ds: seq<Delivery>, d: Delivery, queue: seq<Frame>)
    requires queue != [] && queue[0] == d.frame
    ensures Frames(ds + [d]) + queue[1..] == Frames(ds) + queue
  {
    assert Frames(ds + [d]) == Frames(ds) + [d.frame];
    DropNext(queue, 0);
    Units(queue);
    Assoc(Frames(ds), [d.frame], queue[1..]);
  }
}
