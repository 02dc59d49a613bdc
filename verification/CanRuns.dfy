/** One run of the receive task of source/communication/pif_can.c, as a function of when frames arrive: which frames
    it delivers, and to whom. Frames are put by an interrupt, which may come between any two steps of the task. */
module CanRuns {
  import opened Options
  import opened Seqs
  import opened CanFrames
  import opened Marked

  /** A PifCanClient: some client with its identity and whether it has an evt_receive, or a stream that takes the frames
      of its ID. */
  datatype Client = Other(id: nat, hasReceive: bool) | Stream(id: nat, rxId: nat, extended: bool)

  /** What happens during a run of the receive loop. How many frames arrive at each point of a turn: the points are 0,
      before the head of the queue is read, 1, between that and the reading of the tail, one before each client that is
      offered the frame, and one before the frame is removed. And what evt_receive of each client answers in that turn
      to the frame, whatever it looks at. */
  datatype Events = Events(arrive: (nat, nat) -> nat, answer: (nat, nat, Frame) -> bool)

  predicate Takes(clients: seq<Client>, i: nat, f: Frame, turn: nat, events: Events)
    requires i < |clients|
  {
    match clients[i]
    case Other(_, hasReceive) => hasReceive && events.answer(turn, i, f)
    case Stream(_, rxId, extended) => f.DataFrame? && f.id == rxId && f.flags.extended == extended
  }

  /** A frame given to the client at that place of the list, or to evt_receive of the controller. */
  datatype Delivery = Delivery(frame: Frame, client: Option<nat>)

  /** The first client from i on that takes the frame. */
  function FirstTaker(clients: seq<Client>, f: Frame, i: nat, turn: nat, events: Events): (r: Option<nat>)
    requires i <= |clients|
    ensures r.Some? ==> i <= r.value < |clients| && Takes(clients, r.value, f, turn, events)
    ensures forall k :: i <= k < (if r.Some? then r.value else |clients|) ==> !Takes(clients, k, f, turn, events)
    decreases |clients| - i
  {
    if i == |clients| then None
    else if Takes(clients, i, f, turn, events) then Some(i)
    else FirstTaker(clients, f, i + 1, turn, events)
  }

  function Frames(ds: seq<Delivery>): (r: seq<Frame>)
    ensures |r| == |ds|
    ensures forall i :: 0 <= i < |r| ==> r[i] == ds[i].frame
  {
    seq(|ds|, i requires 0 <= i < |ds| => ds[i].frame)
  }

  // ---------------------------------------------------------------- arrivals

  /** The receive queue, the frames on the bus on their way to it, and all frames heard so far, each with whether it
      found room. */
  datatype Rx = Rx(queue: seq<Frame>, bus: seq<Frame>, heard: seq<Frame>, stored: seq<bool>)

  function ArriveOne(s: Rx, capacity: nat): Rx
    requires s.bus != []
  {
    var f, room := s.bus[0], |s.queue| < capacity;
    Rx(s.queue + (if room then [f] else []), s.bus[1..], s.heard + [f], s.stored + [room])
  }

  /** Interrupts that put n frames, or as many as there are on the bus. */
  function Arrive(s: Rx, n: nat, capacity: nat): Rx
    decreases n
  {
    if n == 0 || s.bus == [] then s else Arrive(ArriveOne(s, capacity), n - 1, capacity)
  }

  lemma {:induction false} ArriveMore(s: Rx, a: nat, b: nat, sum: nat, capacity: nat)
    requires sum == a + b
    ensures Arrive(Arrive(s, a, capacity), b, capacity) == Arrive(s, sum, capacity)
    decreases a
  {
    if a > 0 && s.bus != [] {
      ArriveMore(ArriveOne(s, capacity), a - 1, b, sum - 1, capacity);
    }
  }

  /** Arrivals add to the end of the queue, within its capacity, and take frames off the bus in order. */
  lemma {:induction false} ArriveAdds(s: Rx, n: nat, capacity: nat)
    requires |s.queue| <= capacity && |s.stored| == |s.heard|
    ensures var r := Arrive(s, n, capacity);
            && s.queue <= r.queue && |r.queue| <= capacity && |r.stored| == |r.heard|
            && s.heard <= r.heard && r.heard + r.bus == s.heard + s.bus
    decreases n
  {
    if n > 0 && s.bus != [] {
      MoveHead(s.heard, s.bus);
      ArriveAdds(ArriveOne(s, capacity), n - 1, capacity);
    }
  }

  /** What was kept of the frames heard is what has left the queue and what is in it. */
  ghost predicate Accounted(s: Rx, gone: seq<Frame>) {
    |s.stored| == |s.heard| && Keep(s.heard, s.stored) == gone + s.queue
  }

  lemma HeardAccounted(s: Rx, f: Frame, room: bool, gone: seq<Frame>, next: Rx)
    requires Accounted(s, gone)
    requires next.queue == s.queue + (if room then [f] else [])
    requires next.heard == s.heard + [f] && next.stored == s.stored + [room]
    ensures Accounted(next, gone)
    ensures Missing(next.stored) == Missing(s.stored) + (if room then 0 else 1)
  {
    KeepNext(s.heard, s.stored, f, room);
    Assoc(gone, s.queue, if room then [f] else []);
  }

  lemma ArriveOneAccounted(s: Rx, capacity: nat, gone: seq<Frame>)
    requires Accounted(s, gone) && s.bus != []
    ensures Accounted(ArriveOne(s, capacity), gone)
  {
    HeardAccounted(s, s.bus[0], |s.queue| < capacity, gone, ArriveOne(s, capacity));
  }

  lemma {:induction false} ArriveAccounted(s: Rx, n: nat, capacity: nat, gone: seq<Frame>)
    requires Accounted(s, gone)
    ensures Accounted(Arrive(s, n, capacity), gone)
    decreases n
  {
    if n > 0 && s.bus != [] {
      ArriveOneAccounted(s, capacity, gone);
      ArriveAccounted(ArriveOne(s, capacity), n - 1, capacity, gone);
    }
  }

  /** The first frame to arrive finds room if there is any. */
  lemma ArriveSome(s: Rx, n: nat, capacity: nat)
    requires n > 0 && s.bus != [] && |s.queue| < capacity && |s.stored| == |s.heard|
    ensures |Arrive(s, n, capacity).queue| > |s.queue|
  {
    ArriveAdds(ArriveOne(s, capacity), n - 1, capacity);
  }

  // ---------------------------------------------------------------- a run

  /** The point of a turn before its frame is removed. */
  function LastPoint(clients: seq<Client>, f: Frame, turn: nat, events: Events): (p: nat)
    ensures p >= 2
  {
    2 + (match FirstTaker(clients, f, 0, turn, events) case None => |clients| case Some(i) => i + 1)
  }

  lemma TakerStep(clients: seq<Client>, f: Frame, i: nat, next: nat, turn: nat, events: Events)
    requires i <= |clients| && next == i + 1
    ensures if i == |clients| then FirstTaker(clients, f, i, turn, events) == None
            else if Takes(clients, i, f, turn, events) then FirstTaker(clients, f, i, turn, events) == Some(i)
            else FirstTaker(clients, f, i, turn, events) == FirstTaker(clients, f, next, turn, events)
    ensures FirstTaker(clients, f, 0, turn, events) == Some(i) ==> LastPoint(clients, f, turn, events) == 2 + next
    ensures FirstTaker(clients, f, 0, turn, events) == None ==> LastPoint(clients, f, turn, events) == 2 + |clients|
  {
  }

  /** Arrivals of a turn at the points from p up to q. */
  function Total(events: Events, turn: nat, p: nat, q: nat): nat
    requires p <= q
    decreases q - p
  {
    if p == q then 0 else events.arrive(turn, p) + Total(events, turn, p + 1, q)
  }

  lemma {:induction false} TotalNext(events: Events, turn: nat, p: nat, q: nat)
    requires p <= q
    ensures Total(events, turn, p, q + 1) == Total(events, turn, p, q) + events.arrive(turn, q)
    decreases q - p
  {
    if p < q {
      TotalNext(events, turn, p + 1, q);
    }
  }

  /** After the arrivals of a turn while its frame is offered, up to point q. */
  function Until(s: Rx, turn: nat, events: Events, q: nat, capacity: nat): Rx
    requires q >= 2
  {
    Arrive(s, Total(events, turn, 2, q), capacity)
  }

  lemma UntilFirst(s: Rx, turn: nat, events: Events, capacity: nat)
    ensures Until(s, turn, events, 2, capacity) == s
  {
  }

  lemma UntilNext(s: Rx, turn: nat, events: Events, q: nat, next: nat, capacity: nat)
    requires q >= 2 && next == q + 1
    ensures Until(s, turn, events, next, capacity)
            == Arrive(Until(s, turn, events, q, capacity), events.arrive(turn, q), capacity)
  {
    TotalNext(events, turn, 2, q);
    ArriveMore(s, Total(events, turn, 2, q), events.arrive(turn, q), Total(events, turn, 2, next), capacity);
  }

  /** The arrivals of a turn after the look, one after the other. */
  lemma TurnArrivals(look: Rx, turn: nat, events: Events, last: nat, next: nat, capacity: nat)
    requires last >= 2 && next == last + 1
    ensures Arrive(look, Total(events, turn, 1, next), capacity)
            == Arrive(Until(Arrive(look, events.arrive(turn, 1), capacity), turn, events, last, capacity),
                      events.arrive(turn, last), capacity)
  {
    var offered := Arrive(look, events.arrive(turn, 1), capacity);
    UntilNext(offered, turn, events, last, next, capacity);
    ArriveMore(look, events.arrive(turn, 1), Total(events, turn, 2, next), Total(events, turn, 1, next), capacity);
  }

  datatype Run = Run(delivered: seq<Delivery>, rx: Rx)

  /** A run from a turn on. It ends after as many turns as the queue has room for, or at a look at the queue that finds
      it empty. */
  function RunRx(s: Rx, turn: nat, capacity: nat, clients: seq<Client>, events: Events): Run
    decreases if turn < capacity then capacity - turn else 0
  {
    if turn >= capacity then Run([], s) else
    var look := Arrive(s, events.arrive(turn, 0), capacity);
    if look.queue == [] then Run([], Arrive(look, events.arrive(turn, 1), capacity)) else
    var f := look.queue[0];
    var rest := RunRx(AfterTurn(s, turn, capacity, clients, events), turn + 1, capacity, clients, events);
    Run([Delivery(f, FirstTaker(clients, f, 0, turn, events))] + rest.delivered, rest.rx)
  }

  function Removed(s: Rx): Rx
    requires s.queue != []
  {
    s.(queue := s.queue[1..])
  }

  /** After the frame at the head of the queue has been offered and removed. */
  function Handled(s: Rx, turn: nat, capacity: nat, clients: seq<Client>, events: Events): Rx
    requires s.queue != []
  {
    var last := LastPoint(clients, s.queue[0], turn, events);
    var end := Arrive(Until(s, turn, events, last, capacity), events.arrive(turn, last), capacity);
    if end.queue == [] then s else Removed(end)
  }

  lemma HandledIs(s: Rx, f: Frame, last: nat, end: Rx, turn: nat, capacity: nat, clients: seq<Client>,
                  events: Events)
    requires s.queue != [] && s.queue[0] == f && last == LastPoint(clients, f, turn, events) && end.queue != []
    requires end == Arrive(Until(s, turn, events, last, capacity), events.arrive(turn, last), capacity)
    ensures Handled(s, turn, capacity, clients, events) == Removed(end)
  {
  }

  /** A turn is the look, and the handling of the frame it finds. */
  lemma TurnIsHandled(s: Rx, look: Rx, found: Rx, turn: nat, capacity: nat, clients: seq<Client>, events: Events)
    requires |s.queue| <= capacity && |s.stored| == |s.heard|
    requires look == Arrive(s, events.arrive(turn, 0), capacity) && look.queue != []
    requires found == Arrive(look, events.arrive(turn, 1), capacity)
    ensures found.queue != [] && found.queue[0] == look.queue[0]
    ensures AfterTurn(s, turn, capacity, clients, events) == Handled(found, turn, capacity, clients, events)
  {
    hide Arrive, FirstTaker, Total, Handled, Until, LastPoint;
    ArriveAdds(s, events.arrive(turn, 0), capacity);
    ArriveAdds(look, events.arrive(turn, 1), capacity);
    var last := LastPoint(clients, look.queue[0], turn, events);
    var end := Arrive(look, Total(events, turn, 1, last + 1), capacity);
    TurnArrivals(look, turn, events, last, last + 1, capacity);
    ArriveAdds(look, Total(events, turn, 1, last + 1), capacity);
    HandledIs(found, look.queue[0], last, end, turn, capacity, clients, events);
    AfterTurnIs(s, look, last, end, turn, capacity, clients, events);
  }

  lemma AfterTurnIs(s: Rx, look: Rx, last: nat, end: Rx, turn: nat, capacity: nat, clients: seq<Client>, events: Events)
    requires look == Arrive(s, events.arrive(turn, 0), capacity) && look.queue != [] && end.queue != []
    requires last == LastPoint(clients, look.queue[0], turn, events)
    requires end == Arrive(look, Total(events, turn, 1, last + 1), capacity)
    ensures AfterTurn(s, turn, capacity, clients, events) == Removed(end)
  {
  }

  /** After a turn that delivers a frame. */
  function AfterTurn(s: Rx, turn: nat, capacity: nat, clients: seq<Client>, events: Events): Rx
  {
    var look := Arrive(s, events.arrive(turn, 0), capacity);
    if look.queue == [] then s else
    var end := Arrive(look, Total(events, turn, 1, LastPoint(clients, look.queue[0], turn, events) + 1), capacity);
    if end.queue == [] then s else Removed(end)
  }

  lemma TurnAdds(s: Rx, turn: nat, capacity: nat, clients: seq<Client>, events: Events)
    requires |s.queue| <= capacity && |s.stored| == |s.heard|
    requires Arrive(s, events.arrive(turn, 0), capacity).queue != []
    ensures var look, r := Arrive(s, events.arrive(turn, 0), capacity), AfterTurn(s, turn, capacity, clients, events);
            && |r.queue| <= capacity && |r.stored| == |r.heard| && look.queue[1..] <= r.queue
            && s.queue <= look.queue
  {
    var look := Arrive(s, events.arrive(turn, 0), capacity);
    ArriveAdds(s, events.arrive(turn, 0), capacity);
    ArriveAdds(look, Total(events, turn, 1, LastPoint(clients, look.queue[0], turn, events) + 1), capacity);
  }

  /** All frames queued at the start are delivered, as far as there are turns, and no more frames than turns. */
  lemma {:induction false} RunDelivers(s: Rx, turn: nat, capacity: nat, clients: seq<Client>, events: Events)
    requires turn <= capacity && |s.queue| <= capacity && |s.stored| == |s.heard|
    ensures var n := |RunRx(s, turn, capacity, clients, events).delivered|;
            n <= capacity - turn && (|s.queue| <= n || n == capacity - turn)
    decreases capacity - turn
  {
    if turn < capacity {
      ArriveAdds(s, events.arrive(turn, 0), capacity);
      if Arrive(s, events.arrive(turn, 0), capacity).queue != [] {
        TurnAdds(s, turn, capacity, clients, events);
        RunDelivers(AfterTurn(s, turn, capacity, clients, events), turn + 1, capacity, clients, events);
      }
    }
  }

  /** A run takes frames off the bus in order. */
  lemma {:induction false} RunHears(s: Rx, turn: nat, capacity: nat, clients: seq<Client>, events: Events)
    requires |s.queue| <= capacity && |s.stored| == |s.heard|
    ensures var r := RunRx(s, turn, capacity, clients, events).rx; r.heard + r.bus == s.heard + s.bus
    decreases if turn < capacity then capacity - turn else 0
  {
    if turn < capacity {
      var look := Arrive(s, events.arrive(turn, 0), capacity);
      ArriveAdds(s, events.arrive(turn, 0), capacity);
      if look.queue == [] {
        ArriveAdds(look, events.arrive(turn, 1), capacity);
      } else {
        TurnAdds(s, turn, capacity, clients, events);
        ArriveAdds(look, Total(events, turn, 1, LastPoint(clients, look.queue[0], turn, events) + 1), capacity);
        RunHears(AfterTurn(s, turn, capacity, clients, events), turn + 1, capacity, clients, events);
      }
    }
  }

  /** The frames queued at the start are the first to be delivered, in order, and those not delivered the first in what
      the run leaves. */
  lemma {:induction false} RunInOrder(s: Rx, turn: nat, capacity: nat, clients: seq<Client>, events: Events)
    requires |s.queue| <= capacity && |s.stored| == |s.heard|
    ensures var r := RunRx(s, turn, capacity, clients, events); s.queue <= Frames(r.delivered) + r.rx.queue
    decreases if turn < capacity then capacity - turn else 0
  {
    hide Arrive, AfterTurn, FirstTaker;
    if turn < capacity {
      var look := Arrive(s, events.arrive(turn, 0), capacity);
      ArriveAdds(s, events.arrive(turn, 0), capacity);
      if look.queue == [] {
        assert s.queue == [];
      } else {
        var next := AfterTurn(s, turn, capacity, clients, events);
        TurnAdds(s, turn, capacity, clients, events);
        RunInOrder(next, turn + 1, capacity, clients, events);
        TurnInOrder(s, look, next, turn, capacity, clients, events);
      }
    }
  }

  lemma TurnInOrder(s: Rx, look: Rx, next: Rx, turn: nat, capacity: nat, clients: seq<Client>, events: Events)
    requires turn < capacity && look == Arrive(s, events.arrive(turn, 0), capacity) && look.queue != []
    requires next == AfterTurn(s, turn, capacity, clients, events)
    requires s.queue <= look.queue && look.queue[1..] <= next.queue
    requires var rest := RunRx(next, turn + 1, capacity, clients, events);
             next.queue <= Frames(rest.delivered) + rest.rx.queue
    ensures var r := RunRx(s, turn, capacity, clients, events); s.queue <= Frames(r.delivered) + r.rx.queue
  {
    var f, rest := look.queue[0], RunRx(next, turn + 1, capacity, clients, events);
    var r := RunRx(s, turn, capacity, clients, events);
    assert Frames(r.delivered) == [f] + Frames(rest.delivered);
    Assoc([f], Frames(rest.delivered), rest.rx.queue);
    assert look.queue == [f] + look.queue[1..];
  }

  /** The account of the frames holds over a run: those kept are those that had left the queue, those delivered and
      those still queued, in this order. */
  lemma {:induction false} RunAccounted(s: Rx, turn: nat, capacity: nat, clients: seq<Client>, events: Events,
                                        gone: seq<Frame>)
    requires |s.queue| <= capacity && Accounted(s, gone)
    ensures var r := RunRx(s, turn, capacity, clients, events); Accounted(r.rx, gone + Frames(r.delivered))
    decreases if turn < capacity then capacity - turn else 0
  {
    hide Arrive, FirstTaker, Accounted;
    AccountedLengths(s, gone);
    Units(gone);
    if turn < capacity {
      var look := Arrive(s, events.arrive(turn, 0), capacity);
      ArriveAdds(s, events.arrive(turn, 0), capacity);
      ArriveAccounted(s, events.arrive(turn, 0), capacity, gone);
      if look.queue == [] {
        ArriveAccounted(look, events.arrive(turn, 1), capacity, gone);
      } else {
        var f, n := look.queue[0], Total(events, turn, 1, LastPoint(clients, look.queue[0], turn, events) + 1);
        var end, rest := Arrive(look, n, capacity), AfterTurn(s, turn, capacity, clients, events);
        TurnAdds(s, turn, capacity, clients, events);
        ArriveAdds(look, n, capacity);
        ArriveAccounted(look, n, capacity, gone);
        RemovedAccounted(end, gone);
        RunAccounted(rest, turn + 1, capacity, clients, events, gone + [f]);
        var ds := RunRx(rest, turn + 1, capacity, clients, events).delivered;
        assert Frames(RunRx(s, turn, capacity, clients, events).delivered) == [f] + Frames(ds);
        Assoc(gone, [f], Frames(ds));
      }
    }
  }

  lemma AccountedLengths(s: Rx, gone: seq<Frame>)
    requires Accounted(s, gone)
    ensures |s.stored| == |s.heard|
  {
  }

  lemma RemovedAccounted(s: Rx, gone: seq<Frame>)
    requires Accounted(s, gone) && s.queue != []
    ensures Accounted(Removed(s), gone + [s.queue[0]])
  {
    MoveHead(gone, s.queue);
  }

  /** Nothing is due to arrive while these frames are delivered, nor before the look after them. */
  predicate Quiet(queue: seq<Frame>, turn: nat, clients: seq<Client>, events: Events)
    decreases |queue|
  {
    events.arrive(turn, 0) == 0
    && (queue == [] || (Total(events, turn, 1, LastPoint(clients, queue[0], turn, events) + 1) == 0
                        && Quiet(queue[1..], turn + 1, clients, events)))
  }

  lemma {:induction false} QuietRun(s: Rx, turn: nat, capacity: nat, clients: seq<Client>, events: Events)
    requires turn + |s.queue| < capacity && |s.stored| == |s.heard|
    ensures |RunRx(s, turn, capacity, clients, events).delivered| == |s.queue|
            <==> s.bus == [] || Quiet(s.queue, turn, clients, events)
    decreases |s.queue|
  {
    if s.bus != [] && events.arrive(turn, 0) > 0 {
      ComesBeforeLook(s, turn, capacity, clients, events);
    } else if s.queue != [] {
      var n := Total(events, turn, 1, LastPoint(clients, s.queue[0], turn, events) + 1);
      if s.bus != [] && n > 0 {
        ComesDuringTurn(s, turn, capacity, clients, events, n);
      } else {
        QuietTurn(s, turn, capacity, clients, events, n);
        QuietRun(Removed(s), turn + 1, capacity, clients, events);
      }
    }
  }

  lemma ComesBeforeLook(s: Rx, turn: nat, capacity: nat, clients: seq<Client>, events: Events)
    requires turn + |s.queue| < capacity && |s.stored| == |s.heard| && s.bus != [] && events.arrive(turn, 0) > 0
    ensures |RunRx(s, turn, capacity, clients, events).delivered| > |s.queue|
  {
    ArriveSome(s, events.arrive(turn, 0), capacity);
    TurnAdds(s, turn, capacity, clients, events);
    MoreThanQueued(s, turn, capacity, clients, events);
  }

  lemma ComesDuringTurn(s: Rx, turn: nat, capacity: nat, clients: seq<Client>, events: Events, n: nat)
    requires turn + |s.queue| < capacity && |s.stored| == |s.heard| && s.bus != [] && s.queue != []
    requires events.arrive(turn, 0) == 0
    requires n == Total(events, turn, 1, LastPoint(clients, s.queue[0], turn, events) + 1) > 0
    ensures |RunRx(s, turn, capacity, clients, events).delivered| > |s.queue|
  {
    ArriveSome(s, n, capacity);
    assert Arrive(s, 0, capacity) == s;
    MoreThanQueued(s, turn, capacity, clients, events);
  }

  lemma QuietTurn(s: Rx, turn: nat, capacity: nat, clients: seq<Client>, events: Events, n: nat)
    requires turn < capacity && s.queue != []
    requires n == Total(events, turn, 1, LastPoint(clients, s.queue[0], turn, events) + 1)
    requires s.bus == [] || events.arrive(turn, 0) == n == 0
    ensures |RunRx(s, turn, capacity, clients, events).delivered|
            == 1 + |RunRx(Removed(s), turn + 1, capacity, clients, events).delivered|
  {
    assert Arrive(s, events.arrive(turn, 0), capacity) == s && Arrive(s, n, capacity) == s;
  }

  /** A turn after which no fewer frames are queued than before is followed by as many more. */
  lemma MoreThanQueued(s: Rx, turn: nat, capacity: nat, clients: seq<Client>, events: Events)
    requires turn + |s.queue| < capacity && |s.stored| == |s.heard|
    requires Arrive(s, events.arrive(turn, 0), capacity).queue != []
    requires |AfterTurn(s, turn, capacity, clients, events).queue| >= |s.queue|
    ensures |RunRx(s, turn, capacity, clients, events).delivered| > |s.queue|
  {
    TurnAdds(s, turn, capacity, clients, events);
    RunDelivers(AfterTurn(s, turn, capacity, clients, events), turn + 1, capacity, clients, events);
  }

  /** Main result about the promise that frames put during a run wait for the next one: a run delivers exactly the
      frames queued when it starts, in order, if and only if the queue is full then, or no frame arrives before the look
      that would find it empty. */
  lemma WaitsForNextRun(s: Rx, capacity: nat, clients: seq<Client>, events: Events)
    requires |s.queue| <= capacity && |s.stored| == |s.heard|
    ensures Frames(RunRx(s, 0, capacity, clients, events).delivered) == s.queue
            <==> |s.queue| == capacity || s.bus == [] || Quiet(s.queue, 0, clients, events)
  {
    RunInOrder(s, 0, capacity, clients, events);
    if |s.queue| < capacity {
      QuietRun(s, 0, capacity, clients, events);
    } else {
      RunDelivers(s, 0, capacity, clients, events);
    }
  }

  /** A queue for two frames that holds one, and a second one that arrives while the first is offered: both are
      delivered in the same run, whatever the clients answer. */
  lemma DeliveredInSameRun(f: Frame, g: Frame, clients: seq<Client>, answer: (nat, nat, Frame) -> bool)
      returns (events: Events)
    ensures events.answer == answer
    ensures Frames(RunRx(Rx([f], [g], [], []), 0, 2, clients, events).delivered) == [f, g]
  {
    events := Events((turn: nat, point: nat) => if turn == 0 && point == 1 then 1 else 0, answer);
    var s := Rx([f], [g], [], []);
    var last := LastPoint(clients, f, 0, events) + 1;
    NoArrivals(events, 0, 2, last);
    NoArrivals(events, 1, 1, LastPoint(clients, g, 1, events) + 1);
    var after := AfterTurn(s, 0, 2, clients, events);
    assert Total(events, 0, 1, last) == 1;
    assert Arrive(s, 1, 2) == Arrive(ArriveOne(s, 2), 0, 2);
    assert ArriveOne(s, 2).queue == [f, g] && [f, g][1..] == [g];
    assert after.queue == [g] && after.bus == [];
    assert RunRx(after, 1, 2, clients, events).delivered == [Delivery(g, FirstTaker(clients, g, 0, 1, events))];
  }

  lemma {:induction false} NoArrivals(events: Events, turn: nat, p: nat, q: nat)
    requires p <= q && forall k :: p <= k < q ==> events.arrive(turn, k) == 0
    ensures Total(events, turn, p, q) == 0
    decreases q - p
  {
    if p < q {
      NoArrivals(events, turn, p + 1, q);
    }
  }
}
