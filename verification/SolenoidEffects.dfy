/** What each operation of a solenoid channel does, told by what the outside sees and by what waits before and after it,
    and what becomes of an order over a whole run. */
module SolenoidEffects {
  import opened Options
  import opened SolenoidSpec
  import opened SolenoidRuns

  // ---------------------------------------------------------------- what is to be driven

  /** A pulse that is over at now: OFF is driven, and then evt_off called. */
  function Over(acts: seq<Act>, now: int): seq<Act> {
    var end := EndOf(LitBy(acts));
    if end.Some? && end.value <= now then [Off, Ended] else []
  }

  /** With two coils a command in the direction of the last ON is not carried out. */
  predicate Refused(kind: Kind, acts: seq<Act>, dir: Dir) {
    kind == TwoPoint && dir == LastDir(acts)
  }

  function DrivenOne(kind: Kind, acts: seq<Act>, dir: Dir, now: int, time: nat): seq<Act> {
    if Refused(kind, acts, dir) then [] else [On(dir, now, time)]
  }

  /** What is driven for commands that are carried out at now, one after the other. */
  function Driven(kind: Kind, acts: seq<Act>, commands: seq<Target>, now: int, time: nat): (r: seq<Act>)
    ensures forall k :: 0 <= k < |r| ==> r[k].On? && r[k].at == now && r[k].time == time
    decreases |commands|
  {
    if commands == [] then [] else
    var first := DrivenOne(kind, acts, commands[0].dir, now, time);
    first + Driven(kind, acts + first, commands[1..], now, time)
  }

  /** The commands of a list whose time has come at now are its first n. */
  ghost predicate Come(due: seq<Target>, now: int, n: nat) {
    && n <= |due|
    && (forall k :: 0 <= k < n ==> due[k].at <= now)
    && (forall k :: n <= k < |due| ==> now < due[k].at)
  }

  // ---------------------------------------------------------------- the effect of an operation

  /** A run of the task at now ends the pulse that is over and carries out the commands whose time has come, in
      order. */
  ghost predicate TaskDone(kind: Kind, c: Channel, now: int, n: nat, next: Channel) {
    var ended := c.acts + Over(c.acts, now);
    && Come(c.due, now, n) && next.due == c.due[n..] && next.onTime == c.onTime
    && next.acts == ended + Driven(kind, ended, c.due[..n], now, c.onTime)
  }

  /** A command is queued behind those that wait, if there is a queue and room in it; without a queue it takes the place
      of the one that waits; and without a delay it is carried out at once, unless it is queued. */
  predicate OrderTaken(kind: Kind, c: Channel, capacity: nat, now: int, delay: nat, dir: Dir, next: Channel) {
    next.onTime == c.onTime &&
    if capacity > 0 && c.due != [] then
      && next.acts == c.acts
      && next.due == if |c.due| > capacity then c.due
                     else c.due + [Target(QueuedTime(c.due, now, delay), dir)]
    else if delay > 0 then
      next.acts == c.acts && next.due == [Target(now + delay, dir)]
    else
      && next.due == c.due
      && next.acts == if Refused(kind, c.acts, dir) then c.acts
                      else c.acts + Over(c.acts, now) + [On(dir, now, c.onTime)]
  }

  /** The delay counts from now, or from the waiting deadline if that is over, but a command never comes before the one
      in front of it. */
  function QueuedTime(due: seq<Target>, now: int, delay: nat): int
    requires due != []
  {
    var from := if now < due[0].at then now else due[0].at;
    var last := due[|due| - 1].at;
    if from + delay < last then last else from + delay
  }

  /** Everything that waits is dropped, and OFF driven exactly if the channel is ON. */
  predicate Stopped(c: Channel, next: Channel) {
    next.due == [] && next.onTime == c.onTime && next.acts == c.acts + (if StateOf(c.acts) then [Off] else [])
  }

  ghost predicate Effect(kind: Kind, c: Channel, op: Op, next: Channel) {
    match op
    case Task(now) => exists n: nat :: TaskDone(kind, c, now, n, next)
    case Order(capacity, now, delay, dir) => OrderTaken(kind, c, capacity, now, delay, dir, next)
    case Stop => Stopped(c, next)
    case ForgetDir => next.acts == c.acts + [Forget] && next.due == c.due && next.onTime == c.onTime
    case SetOnTime(time) => next.acts == c.acts && next.due == c.due && next.onTime == time
    case DropQueue =>
      next.acts == c.acts && next.due == (if c.due == [] then [] else [c.due[0]]) && next.onTime == c.onTime
  }

  // ---------------------------------------------------------------- they have it

  /** A pulse that is over is ended once. */
  lemma EndsOver(kind: Kind, c: Channel, now: int)
    requires Sane(kind, c)
    ensures var e := EndPulse(c, now);
            && e.acts == c.acts + Over(c.acts, now) && e.due == c.due && e.onTime == c.onTime
            && LastDir(e.acts) == LastDir(c.acts) == c.cur == e.cur && (e.pulse.Some? ==> e.pulse.value > now)
  {
    LitIsOn(c.acts);
    EndPulseSane(kind, c, now);
    Unchanged(c.acts);
  }

  lemma Unchanged<T>(s: seq<T>)
    ensures s + [] == s
  {
  }

  lemma Joined<T>(a: seq<T>, b: seq<T>, c: seq<T>)
    ensures a + b + c == a + (b + c)
  {
  }

  /** Switching on when no pulse is over. */
  lemma SwitchesOn(kind: Kind, c: Channel, now: int, dir: Dir)
    requires Sane(kind, c) && (c.pulse.Some? ==> c.pulse.value > now)
    ensures var r := SwitchOn(kind, c, now, dir);
            && r.acts == c.acts + DrivenOne(kind, c.acts, dir, now, c.onTime)
            && r.due == c.due && r.onTime == c.onTime && (r.pulse.Some? ==> r.pulse.value > now)
  {
    Unchanged(c.acts);
  }

  lemma NothingComes(kind: Kind, c: Channel, now: int)
    requires Come(c.due, now, 0)
    ensures RunDue(kind, c, now) == c && c.due[0..] == c.due && c.due[..0] == []
  {
  }

  lemma OneComes(due: seq<Target>, now: int, n: nat, less: nat)
    requires Come(due, now, n) && n == less + 1
    ensures due != [] && due[0].at <= now && Come(due[1..], now, less)
    ensures due[1..][..less] == due[..n][1..] && due[1..][less..] == due[n..] && due[..n][0] == due[0]
  {
  }

  /** Carrying out the first command leaves a channel with the others. */
  lemma RunFirst(kind: Kind, c: Channel, now: int) returns (next: Channel)
    requires Sane(kind, c) && c.due != [] && c.due[0].at <= now && (c.pulse.Some? ==> c.pulse.value > now)
    ensures RunDue(kind, c, now) == RunDue(kind, next, now)
    ensures Sane(kind, next) && (next.pulse.Some? ==> next.pulse.value > now)
    ensures next.acts == c.acts + DrivenOne(kind, c.acts, c.due[0].dir, now, c.onTime)
    ensures next.due == c.due[1..] && next.onTime == c.onTime
  {
    hide Sane, RunDue, SwitchOn, DrivenOne;
    var rest := c.(due := c.due[1..]);
    next := SwitchOn(kind, rest, now, c.due[0].dir);
    FewerSane(kind, c, 1);
    DirIsValid(kind, c);
    SwitchesOn(kind, rest, now, c.due[0].dir);
    SwitchOnSane(kind, rest, now, c.due[0].dir);
    RunDueStep(kind, c, now);
  }

  lemma {:induction false} RunDrives(kind: Kind, c: Channel, now: int, n: nat)
    requires Sane(kind, c) && Come(c.due, now, n) && (c.pulse.Some? ==> c.pulse.value > now)
    ensures var r := RunDue(kind, c, now);
            && r.acts == c.acts + Driven(kind, c.acts, c.due[..n], now, c.onTime)
            && r.due == c.due[n..] && r.onTime == c.onTime
    decreases n
  {
    hide Sane, RunDue, Driven, DrivenOne, Come;
    if n == 0 {
      NothingComes(kind, c, now);
      NoneDriven(kind, c.acts, c.due[..0], now, c.onTime);
    } else {
      OneComes(c.due, now, n, n - 1);
      var next := RunFirst(kind, c, now);
      RunDrives(kind, next, now, n - 1);
      DrivenFirst(kind, c.acts, c.due[..n], now, c.onTime);
      Joined(c.acts, DrivenOne(kind, c.acts, c.due[0].dir, now, c.onTime),
             Driven(kind, next.acts, next.due[..n - 1], now, c.onTime));
    }
  }

  lemma DirIsValid(kind: Kind, c: Channel)
    requires Sane(kind, c)
    ensures c.due != [] ==> kind == TwoPoint ==> c.due[0].dir != Invalid
  {
  }

  lemma DrivenFirst(kind: Kind, acts: seq<Act>, commands: seq<Target>, now: int, time: nat)
    requires commands != []
    ensures var first := DrivenOne(kind, acts, commands[0].dir, now, time);
            Driven(kind, acts, commands, now, time) == first + Driven(kind, acts + first, commands[1..], now, time)
  {
  }

  lemma TaskHasItsEffect(kind: Kind, c: Channel, now: int) returns (n: nat)
    requires Sane(kind, c)
    ensures TaskDone(kind, c, now, n, Process(kind, c, now))
  {
    hide Driven;
    n := DueCount(c.due, now);
    SomeHaveCome(kind, c, now, n);
    EndsOver(kind, c, now);
    EndPulseSane(kind, c, now);
    RunDrives(kind, EndPulse(c, now), now, n);
  }

  lemma SomeHaveCome(kind: Kind, c: Channel, now: int, n: nat)
    requires Sane(kind, c) && n == DueCount(c.due, now)
    ensures Come(c.due, now, n)
  {
    forall k | n <= k < |c.due|
      ensures now < c.due[k].at
    {
      DueIsByTime(c.due, now, k);
    }
  }

  lemma OrderHasItsEffect(kind: Kind, c: Channel, capacity: nat, now: int, delay: nat, dir: Dir)
    requires Sane(kind, c)
    ensures OrderTaken(kind, c, capacity, now, delay, dir, Apply(kind, c, Order(capacity, now, delay, dir)))
  {
    hide Sane, EndPulse, Over;
    EndsOver(kind, c, now);
  }

  /** Main result: every operation has its effect, and no other. */
  lemma HasItsEffect(kind: Kind, c: Channel, op: Op)
    requires Sane(kind, c)
    ensures Effect(kind, c, op, Apply(kind, c, op))
  {
    match op
    case Task(now) => var n := TaskHasItsEffect(kind, c, now);
    case Order(capacity, now, delay, dir) => OrderHasItsEffect(kind, c, capacity, now, delay, dir);
    case Stop => Unchanged(c.acts);
    case _ =>
  }

  // ---------------------------------------------------------------- whole runs

  /** The pulse length set last. */
  function TimeSet(onTime: nat, ops: seq<Op>): nat {
    if ops == [] then onTime
    else if ops[|ops| - 1].SetOnTime? then ops[|ops| - 1].onTime
    else TimeSet(onTime, ops[..|ops| - 1])
  }

  ghost predicate AllAllowed(kind: Kind, ops: seq<Op>) {
    forall i :: 0 <= i < |ops| ==> Allowed(kind, ops[i])
  }

  function State(kind: Kind, onTime: nat, ops: seq<Op>, i: nat): Channel
    requires i <= |ops|
  {
    AfterAll(kind, Start(onTime), ops[..i])
  }

  lemma StepOfRun(kind: Kind, onTime: nat, ops: seq<Op>, i: nat, next: nat)
    requires AllAllowed(kind, ops) && i < |ops| && next == i + 1
    ensures Sane(kind, State(kind, onTime, ops, i)) && Sane(kind, State(kind, onTime, ops, next))
    ensures Effect(kind, State(kind, onTime, ops, i), ops[i], State(kind, onTime, ops, next))
  {
    hide Effect, Sane;
    assert ops[..next][..i] == ops[..i] && ops[..next][i] == ops[i];
    EveryRunSane(kind, onTime, ops[..i]);
    EveryRunSane(kind, onTime, ops[..next]);
    HasItsEffect(kind, State(kind, onTime, ops, i), ops[i]);
  }

  lemma {:induction false} TimeInForce(kind: Kind, onTime: nat, ops: seq<Op>, i: nat)
    requires AllAllowed(kind, ops) && i <= |ops|
    ensures State(kind, onTime, ops, i).onTime == TimeSet(onTime, ops[..i])
  {
    hide Sane, Driven;
    if i > 0 {
      TimeInForce(kind, onTime, ops, i - 1);
      StepOfRun(kind, onTime, ops, i - 1, i);
      assert ops[..i][..i - 1] == ops[..i - 1] && ops[..i][i - 1] == ops[i - 1];
    }
  }

  lemma {:induction false} OnsFollow(acts: seq<Act>, ons: seq<Act>)
    requires forall k :: 0 <= k < |ons| ==> ons[k].On?
    ensures LitBy(acts + ons) == if ons == [] then LitBy(acts) else Some(ons[|ons| - 1])
  {
    if ons == [] {
      Unchanged(acts);
    } else {
      assert (acts + ons)[|acts + ons| - 1] == ons[|ons| - 1];
    }
  }

  lemma OffEnds(acts: seq<Act>)
    ensures LitBy(acts + [Off, Ended]) == None
  {
    var all := acts + [Off, Ended];
    assert all[..|all| - 1] == acts + [Off];
  }

  lemma LitAfter(acts: seq<Act>, now: int, ons: seq<Act>)
    requires forall k :: 0 <= k < |ons| ==> ons[k].On? && ons[k].at == now
    ensures var on := LitBy(acts + Over(acts, now) + ons);
            on.Some? ==> on.value.time == 0 || now < on.value.at + on.value.time * 1000
  {
    OnsFollow(acts + Over(acts, now), ons);
    OffEnds(acts);
    Unchanged(acts);
  }

  lemma OverIs(acts: seq<Act>, now: int)
    ensures Over(acts, now) == match LitBy(acts)
                               case None => []
                               case Some(on) =>
                                 if on.time > 0 && on.at + on.time * 1000 <= now then [Off, Ended] else []
  {
  }

  lemma TaskDrives(kind: Kind, c: Channel, now: int, next: Channel) returns (ons: seq<Act>)
    requires Effect(kind, c, Task(now), next)
    ensures next.acts == c.acts + Over(c.acts, now) + ons
    ensures forall k :: 0 <= k < |ons| ==> ons[k].On? && ons[k].at == now && ons[k].time == c.onTime
  {
    hide Driven, Over;
    var n: nat :| TaskDone(kind, c, now, n, next);
    ons := Driven(kind, c.acts + Over(c.acts, now), c.due[..n], now, c.onTime);
  }

  /** Main result on pulses: a channel that is still ON after a run of the task at now is so by an ON that lasts, or
      whose time has not passed; and a pulse whose time has passed ends with that run, OFF first and then evt_off, and
      before anything else is driven. What else is driven is ON, at that time and for the time in force. */
  lemma PulsesEnd(kind: Kind, onTime: nat, ops: seq<Op>, i: nat) returns (ons: seq<Act>)
    requires AllAllowed(kind, ops) && i < |ops| && ops[i].Task?
    ensures var now, before, after := ops[i].now, State(kind, onTime, ops, i).acts, State(kind, onTime, ops, i + 1);
            && after.on == LitBy(after.acts).Some?
            && (after.on ==> var on := LitBy(after.acts).value; on.time == 0 || now < on.at + on.time * 1000)
            && after.acts == before + (match LitBy(before)
                                       case None => []
                                       case Some(on) =>
                                         if on.time > 0 && on.at + on.time * 1000 <= now then [Off, Ended] else [])
                             + ons
    ensures forall k :: 0 <= k < |ons| ==>
              ons[k].On? && ons[k].at == ops[i].now && ons[k].time == TimeSet(onTime, ops[..i])
  {
    hide Sane, State, Effect, Over, LitBy;
    StepOfRun(kind, onTime, ops, i, i + 1);
    TimeInForce(kind, onTime, ops, i);
    var c, next := State(kind, onTime, ops, i), State(kind, onTime, ops, i + 1);
    ons := TaskDrives(kind, c, ops[i].now, next);
    LitAfter(c.acts, ops[i].now, ons);
    OverIs(c.acts, ops[i].now);
    OnByActs(kind, next);
  }

  lemma OnByActs(kind: Kind, c: Channel)
    requires Sane(kind, c)
    ensures c.on == StateOf(c.acts) == LitBy(c.acts).Some? && Nondecreasing(c.due)
  {
    LitIsOn(c.acts);
  }

  /** A command for that time and direction waits at a place of the list. */
  predicate Waits(c: Channel, p: nat, t: Target) {
    p < |c.due| && c.due[p] == t
  }

  /** Operations that leave a command waiting that is at place p or in front of it: any but a run of the task when its
      time has come, a delayed command for a channel without a queue, which takes its place, and those that drop it. */
  predicate Leaves(op: Op, p: nat, t: Target) {
    match op
    case Task(now) => now < t.at
    case Order(capacity, _, delay, _) => capacity > 0 || delay == 0
    case Stop => false
    case DropQueue => p == 0
    case _ => true
  }

  lemma StepLeaves(kind: Kind, c: Channel, op: Op, next: Channel, q: nat, p: nat, t: Target) returns (r: nat)
    requires Sane(kind, c) && Effect(kind, c, op, next) && Waits(c, q, t) && q <= p && Leaves(op, p, t)
    ensures r <= q && Waits(next, r, t)
  {
    hide Sane, Driven;
    r := q;
    if op.Task? {
      var n: nat :| TaskDone(kind, c, op.now, n, next);
      r := q - n;
    }
  }

  lemma {:induction false} StaysWaiting(kind: Kind, onTime: nat, ops: seq<Op>, i: nat, j: nat, p: nat, t: Target)
      returns (q: nat)
    requires AllAllowed(kind, ops) && i <= j <= |ops| && Waits(State(kind, onTime, ops, i), p, t)
    requires forall k :: i <= k < j ==> Leaves(ops[k], p, t)
    ensures q <= p && Waits(State(kind, onTime, ops, j), q, t)
    decreases j
  {
    hide Effect, Sane, State, Waits;
    if i == j {
      q := p;
    } else {
      var before := StaysWaiting(kind, onTime, ops, i, j - 1, p, t);
      StepOfRun(kind, onTime, ops, j - 1, j);
      q := StepLeaves(kind, State(kind, onTime, ops, j - 1), ops[j - 1], State(kind, onTime, ops, j), before, p, t);
    }
  }

  lemma {:induction false} DrivenSplits(kind: Kind, acts: seq<Act>, commands: seq<Target>, q: nat, now: int, time: nat)
      returns (before: seq<Act>, after: seq<Act>)
    requires q < |commands|
    ensures before == Driven(kind, acts, commands[..q], now, time)
    ensures Driven(kind, acts, commands, now, time)
            == before + DrivenOne(kind, acts + before, commands[q].dir, now, time) + after
    decreases q
  {
    hide Driven, DrivenOne;
    DrivenFirst(kind, acts, commands, now, time);
    var first := DrivenOne(kind, acts, commands[0].dir, now, time);
    if q == 0 {
      before, after := [], Driven(kind, acts + first, commands[1..], now, time);
      NoneDriven(kind, acts, commands[..0], now, time);
    } else {
      var rest := commands[1..];
      var b, a := DrivenSplits(kind, acts + first, rest, q - 1, now, time);
      assert commands[..q][1..] == rest[..q - 1] && commands[..q][0] == commands[0];
      DrivenFirst(kind, acts, commands[..q], now, time);
      before, after := first + b, a;
      Joined(acts, first, b);
      var one := DrivenOne(kind, acts + first + b, rest[q - 1].dir, now, time);
      Joined(first, b + one, a);
      Joined(first, b, one);
    }
  }

  lemma NoneDriven(kind: Kind, acts: seq<Act>, none: seq<Target>, now: int, time: nat)
    requires none == []
    ensures Driven(kind, acts, none, now, time) == [] && acts + [] == acts
    ensures forall s: seq<Act> :: [] + s == s
  {
  }

  /** The command that waits at q is carried out by a run of the task when its time has come. */
  lemma CarriedOut(kind: Kind, c: Channel, now: int, next: Channel, q: nat, t: Target)
      returns (before: seq<Act>, after: seq<Act>)
    requires Sane(kind, c) && Effect(kind, c, Task(now), next) && Waits(c, q, t) && t.at <= now
    ensures var acts := c.acts + Over(c.acts, now) + before;
            next.acts == acts + DrivenOne(kind, acts, t.dir, now, c.onTime) + after
    ensures before == Driven(kind, c.acts + Over(c.acts, now), c.due[..q], now, c.onTime)
  {
    hide Sane, Driven, DrivenOne, Over;
    var n: nat :| TaskDone(kind, c, now, n, next);
    assert q < n;
    var ended := c.acts + Over(c.acts, now);
    before, after := DrivenSplits(kind, ended, c.due[..n], q, now, c.onTime);
    assert c.due[..n][..q] == c.due[..q];
    var one := DrivenOne(kind, ended + before, t.dir, now, c.onTime);
    assert ended + (before + one + after) == ended + before + one + after;
  }

  /** Main result on orders: one that has come to wait, and that nothing replaces or drops, is carried out by the first
      run of the task when its time has come: behind the commands that wait in front of it, its ON is driven at that
      time and for the time in force, unless with two coils the last ON was in its direction. */
  lemma WaitingIsCarriedOut(kind: Kind, onTime: nat, ops: seq<Op>, i: nat, j: nat, p: nat, t: Target)
      returns (q: nat, before: seq<Act>, after: seq<Act>)
    requires AllAllowed(kind, ops) && i <= j < |ops| && Waits(State(kind, onTime, ops, i), p, t)
    requires forall k :: i <= k < j ==> Leaves(ops[k], p, t)
    requires ops[j].Task? && t.at <= ops[j].now
    ensures q <= p && Waits(State(kind, onTime, ops, j), q, t)
    ensures var now, c := ops[j].now, State(kind, onTime, ops, j);
            var acts, time := c.acts + Over(c.acts, now) + before, TimeSet(onTime, ops[..j]);
            && before == Driven(kind, c.acts + Over(c.acts, now), c.due[..q], now, time)
            && State(kind, onTime, ops, j + 1).acts
               == acts + (if kind == TwoPoint && t.dir == LastDir(acts) then [] else [On(t.dir, now, time)]) + after
  {
    hide Sane, Effect, State, Waits, Over, Driven;
    q := StaysWaiting(kind, onTime, ops, i, j, p, t);
    StepOfRun(kind, onTime, ops, j, j + 1);
    TimeInForce(kind, onTime, ops, j);
    before, after := CarriedOut(kind, State(kind, onTime, ops, j), ops[j].now, State(kind, onTime, ops, j + 1), q, t);
  }

  /** Until then no run of the task drives it or anything behind it: what is driven is for commands in front of it. */
  lemma NothingEarly(kind: Kind, onTime: nat, ops: seq<Op>, i: nat, q: nat, t: Target) returns (n: nat)
    requires AllAllowed(kind, ops) && i < |ops| && Waits(State(kind, onTime, ops, i), q, t)
    requires ops[i].Task? && ops[i].now < t.at
    ensures n <= q && n <= |State(kind, onTime, ops, i).due|
    ensures var now, c := ops[i].now, State(kind, onTime, ops, i);
            var ended := c.acts + Over(c.acts, now);
            && State(kind, onTime, ops, i + 1).acts
               == ended + Driven(kind, ended, c.due[..n], now, TimeSet(onTime, ops[..i]))
            && forall k :: 0 <= k < n ==> c.due[k].at <= now
  {
    hide Sane, Driven, AfterAll, Over;
    StepOfRun(kind, onTime, ops, i, i + 1);
    TimeInForce(kind, onTime, ops, i);
    n :| TaskDone(kind, State(kind, onTime, ops, i), ops[i].now, n, State(kind, onTime, ops, i + 1));
  }

  /** An order for a channel where nothing waits: without a delay its ON is driven at once, unless with two coils the
      last one was in its direction; with a delay it waits alone, for just that time, and nothing is driven yet. */
  lemma OrderToIdle(kind: Kind, onTime: nat, ops: seq<Op>, i: nat)
    requires AllAllowed(kind, ops) && i < |ops| && ops[i].Order? && State(kind, onTime, ops, i).due == []
    ensures var acts, next := State(kind, onTime, ops, i).acts, State(kind, onTime, ops, i + 1);
            var Order(_, now, delay, dir) := ops[i];
            if delay == 0 then
              && next.due == []
              && next.acts == if kind == TwoPoint && dir == LastDir(acts) then acts
                              else acts + Over(acts, now) + [On(dir, now, TimeSet(onTime, ops[..i]))]
            else
              next.due == [Target(now + delay, dir)] && next.acts == acts
  {
    hide Sane, AfterAll;
    StepOfRun(kind, onTime, ops, i, i + 1);
    TimeInForce(kind, onTime, ops, i);
  }

  /** A delayed order for a channel where nothing waits, that nothing replaces or drops: until its time has come no run
      of the task drives any ON, and the first one then drives its ON, and first of all. */
  lemma DelayedOrder(kind: Kind, onTime: nat, ops: seq<Op>, i: nat, j: nat) returns (after: seq<Act>)
    requires AllAllowed(kind, ops) && i < j < |ops| && ops[i].Order? && ops[i].delay > 0
    requires State(kind, onTime, ops, i).due == []
    requires forall k :: i < k < j ==> Leaves(ops[k], 0, Target(ops[i].now + ops[i].delay, ops[i].dir))
    requires ops[j].Task? && ops[i].now + ops[i].delay <= ops[j].now
    ensures forall k :: i < k < j && ops[k].Task? ==>
              var acts := State(kind, onTime, ops, k).acts;
              State(kind, onTime, ops, k + 1).acts == acts + Over(acts, ops[k].now)
    ensures var now, acts, dir := ops[j].now, State(kind, onTime, ops, j).acts, ops[i].dir;
            State(kind, onTime, ops, j + 1).acts
            == acts + Over(acts, now)
               + (if kind == TwoPoint && dir == LastDir(acts) then [] else [On(dir, now, TimeSet(onTime, ops[..j]))])
               + after
  {
    hide Sane, Effect, State, Over, Driven, LastDir;
    var t := Target(ops[i].now + ops[i].delay, ops[i].dir);
    OrderToIdle(kind, onTime, ops, i);
    forall k | i < k < j && ops[k].Task?
      ensures var acts := State(kind, onTime, ops, k).acts;
              State(kind, onTime, ops, k + 1).acts == acts + Over(acts, ops[k].now)
    {
      var q := StaysWaiting(kind, onTime, ops, i + 1, k, 0, t);
      var n := NothingEarly(kind, onTime, ops, k, q, t);
      NothingDriven(kind, State(kind, onTime, ops, k), ops[k].now, TimeSet(onTime, ops[..k]));
    }
    var q, before, rest := WaitingIsCarriedOut(kind, onTime, ops, i + 1, j, 0, t);
    NothingDriven(kind, State(kind, onTime, ops, j), ops[j].now, TimeSet(onTime, ops[..j]));
    OverKeepsDir(State(kind, onTime, ops, j).acts, ops[j].now);
    after := rest;
  }

  lemma NothingDriven(kind: Kind, c: Channel, now: int, time: nat)
    ensures var ended := c.acts + Over(c.acts, now);
            Driven(kind, ended, c.due[..0], now, time) == [] && ended + [] == ended
  {
  }

  lemma OverKeepsDir(acts: seq<Act>, now: int)
    ensures LastDir(acts + Over(acts, now)) == LastDir(acts)
  {
    Unchanged(acts);
    var all := acts + [Off, Ended];
    assert all[..|all| - 1] == acts + [Off] && (acts + [Off])[..|acts|] == acts;
  }

  /** An order for a channel where commands wait, and that has a queue: refused exactly if the queue is full; else it
      waits behind them, for the greater of the time of the one in front of it and its delay from now, or from the first
      deadline if that is over. Nothing is driven yet. */
  lemma OrderQueued(kind: Kind, onTime: nat, ops: seq<Op>, i: nat)
    requires AllAllowed(kind, ops) && i < |ops| && ops[i].Order? && ops[i].capacity > 0
    requires State(kind, onTime, ops, i).due != []
    ensures var c, next := State(kind, onTime, ops, i), State(kind, onTime, ops, i + 1);
            var Order(capacity, now, delay, dir) := ops[i];
            var from, last := Min(now, c.due[0].at), c.due[|c.due| - 1].at;
            && next.acts == c.acts
            && (|c.due| - 1 >= capacity ==> next.due == c.due)
            && (|c.due| - 1 < capacity ==>
                  next.due == c.due + [Target(Max(last, from + delay), dir)]
                  && Waits(next, |c.due|, Target(Max(last, from + delay), dir)))
  {
    hide Sane, AfterAll, Driven;
    StepOfRun(kind, onTime, ops, i, i + 1);
  }
}
