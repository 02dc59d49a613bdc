/** One channel of source/actuator/pif_solenoid.c: deadlines as values of the wrapping clock, and a queue that holds
    each delay as the difference to the deadline before it. Every operation is shown to do what SolenoidSpec says
    with absolute times. */
module SolenoidChannel {
  import opened Options
  import opened Clock
  import opened SolenoidSpec
  import opened SolenoidRuns
  import opened Words

  /** PifSolenoidContent. */
  datatype Content = Content(delay: uint32, dir: Dir)

  /** The queue behind a deadline at base: each delay counts from the deadline before it. */
  ghost predicate Linked(base: int, due: seq<Target>, queue: seq<Content>)
    decreases |due|
  {
    if due == [] then queue == []
    else
      && queue != []
      && queue[0].delay == due[0].at - base && queue[0].dir == due[0].dir
      && Linked(due[0].at, due[1..], queue[1..])
  }

  lemma {:induction false} LinkedLength(base: int, due: seq<Target>, queue: seq<Content>)
    requires Linked(base, due, queue)
    ensures |queue| == |due| && base <= LastAt(base, due)
    decreases |due|
  {
    if due != [] {
      LinkedLength(due[0].at, due[1..], queue[1..]);
    }
  }

  function LastAt(base: int, due: seq<Target>): int {
    if due == [] then base else due[|due| - 1].at
  }

  lemma {:induction false} LinkedAppend(base: int, due: seq<Target>, queue: seq<Content>, t: Target, c: Content)
    requires Linked(base, due, queue) && c.delay == t.at - LastAt(base, due) && c.dir == t.dir
    ensures Linked(base, due + [t], queue + [c])
    decreases |due|
  {
    if due == [] {
      assert [t][1..] == [] && [c][1..] == [];
      assert due + [t] == [t] && queue + [c] == [c];
    } else {
      assert (due + [t])[1..] == due[1..] + [t] && (queue + [c])[1..] == queue[1..] + [c];
      LinkedAppend(due[0].at, due[1..], queue[1..], t, c);
    }
  }

  lemma LastBehind(due: seq<Target>, k: nat, next: nat)
    requires k < |due| && next == k + 1
    ensures LastAt(due[k].at, due[next..]) == LastAt(0, due)
  {
  }

  /** What a delay leaves over the time to the last command is the difference to be queued. */
  lemma QueuedDelay(due: seq<Target>, now: int, delay: int, time: int)
    requires due != [] && time == LastAt(0, due) - Min(now, due[0].at)
    ensures QueuedAt(due, now, delay) - LastAt(0, due) == if delay > time then delay - time else 0
    ensures LastAt(0, due) - due[0].at <= MAX_DELAY && delay <= MAX_DELAY ==>
              QueuedAt(due, now, delay) - due[0].at <= MAX_DELAY
  {
  }

  /** The same, behind the command that waits. */
  lemma LinkedBehind(due: seq<Target>, queue: seq<Content>, t: Target, c: Content)
    requires due != [] && Linked(due[0].at, due[1..], queue)
    requires c.delay == t.at - LastAt(0, due) && c.dir == t.dir
    ensures Linked(due[0].at, (due + [t])[1..], queue + [c])
  {
    assert LastAt(due[0].at, due[1..]) == LastAt(0, due);
    LinkedAppend(due[0].at, due[1..], queue, t, c);
    assert (due + [t])[1..] == due[1..] + [t];
  }

  class SolenoidChannel {
    var onTime: nat          // milliseconds, a uint16_t
    var state: bool
    var currentDir: Dir
    var onPending: bool      // the pulse is timed, and onEnd is when it ends
    var onEnd: uint32
    var delayPending: bool   // a delayed command waits until delayEnd, in dir
    var delayEnd: uint32
    var dir: Dir
    var capacity: nat        // entries of the ring buffer, 0 without one
    var queue: seq<Content>
    ghost var onAt: int          // onEnd on the clock that does not wrap
    ghost var due: seq<Target>   // the waiting commands on that clock
    ghost var acts: seq<Act>

    ghost function Abs(): Channel
      reads this
    {
      Channel(onTime, state, currentDir, if onPending then Some(onAt) else None, due, acts)
    }

    /** The pulse as the clock tells it. */
    ghost predicate PulseStamped()
      reads this
    {
      onTime < 0x1_0000 && (onPending ==> onEnd == Stamp(onAt))
    }

    ghost predicate Valid()
      reads this
    {
      && PulseStamped()
      && |queue| <= capacity
      && (delayPending <==> due != [])
      && (due == [] ==> queue == [])
      && (due != [] ==> delayEnd == Stamp(due[0].at) && dir == due[0].dir && Linked(due[0].at, due[1..], queue)
                        && LastAt(0, due) - due[0].at <= MAX_DELAY)
    }

    /** The deadlines are less than half a lap of the clock away at t, or over for no longer: what the comment at the
        head of the source asks for, and what the length of the delays gives as to the future. */
    ghost predicate PulseInReach(t: int)
      reads this
    {
      onPending ==> -HALF <= onAt - t <= MAX_DELAY
    }

    ghost predicate InReach(t: int)
      reads this
    {
      PulseInReach(t) && (due != [] ==> -HALF <= due[0].at - t <= MAX_DELAY)
    }

    constructor (onTime: nat)
      requires onTime < 0x1_0000
      ensures Valid() && Abs() == Start(onTime) && capacity == 0
    {
      this.onTime := onTime;
      state, currentDir, onPending, onEnd := false, Invalid, false, 0;
      delayPending, delayEnd, dir, capacity, queue := false, 0, Invalid, 0, [];
      onAt, due, acts := 0, [], [];
    }

    method SwitchOff()
      modifies `state, `acts
      ensures Abs() == SolenoidSpec.SwitchOff(old(Abs()))
    {
      acts := acts + [Off];
      state := false;
    }

    method CheckOff(now: uint32, ghost t: int)
      requires PulseStamped() && now == Stamp(t) && PulseInReach(t)
      modifies `state, `acts, `onPending
      ensures Abs() == EndPulse(old(Abs()), t)
    {
      if onPending {
        RemainExact(onAt, t);
      }
      if !onPending || Remain(onEnd, now) != 0 {
        return;
      }
      onPending := false;
      if !state {
        return;
      }
      ghost var before := acts;
      SwitchOff();
      acts := acts + [Ended];
      assert acts == before + [Off, Ended];
    }

    method SwitchOn(kind: Kind, now: uint32, ghost t: int, d: Dir)
      requires PulseStamped() && now == Stamp(t) && PulseInReach(t)
      modifies `state, `acts, `onPending, `onEnd, `onAt, `currentDir
      ensures Abs() == SolenoidSpec.SwitchOn(kind, old(Abs()), t, d)
      ensures PulseStamped() && PulseInReach(t)
    {
      if kind == TwoPoint && d == currentDir {
        return;
      }
      CheckOff(now, t);
      if onTime != 0 {
        onEnd := (now + onTime * 1000) % WRAP;
        onAt := t + onTime * 1000;
        onPending := true;
        StampSum(t, onTime * 1000);
      } else {
        onPending := false;
      }
      currentDir := d;
      acts := acts + [On(d, t, onTime)];
      state := true;
    }

    method StartDelay(end: uint32, d: Dir)
      modifies `dir, `delayEnd, `delayPending
      ensures dir == d && delayEnd == end && delayPending
    {
      dir := d;
      delayEnd := end;
      delayPending := true;
    }

    /** While the queue is being taken: nothing waits, and the queue follows on a deadline at baseAt that is over. */
    ghost predicate Taking(base: uint32, baseAt: int, t: int)
      reads this
    {
      && PulseStamped() && PulseInReach(t)
      && base == Stamp(baseAt) && -HALF <= baseAt - t <= 0
      && !delayPending && |queue| <= capacity
      && Linked(baseAt, due, queue) && LastAt(baseAt, due) - baseAt <= MAX_DELAY
    }

    /** Carries out the first waiting command, whose entry is already taken out of wherever it was. */
    method RunFirst(kind: Kind, now: uint32, ghost t: int, d: Dir)
      requires PulseStamped() && now == Stamp(t) && PulseInReach(t)
      requires due != [] && due[0].at <= t && due[0].dir == d
      modifies `state, `acts, `onPending, `onEnd, `onAt, `currentDir, `due
      ensures PulseStamped() && PulseInReach(t) && due == old(due)[1..]
      ensures RunDue(kind, Abs(), t) == RunDue(kind, old(Abs()), t)
    {
      RunDueStep(kind, Abs(), t);
      due := due[1..];
      SwitchOn(kind, now, t, d);
    }

    /** A queued command with a delay becomes the one that waits. */
    method StartQueued(ghost t: int, base: uint32, ghost baseAt: int, content: Content)
      requires !delayPending && PulseStamped() && PulseInReach(t) && |queue| <= capacity
      requires base == Stamp(baseAt) && -HALF <= baseAt - t <= 0
      requires Linked(baseAt, due, [content] + queue) && LastAt(baseAt, due) - baseAt <= MAX_DELAY
      modifies `dir, `delayEnd, `delayPending
      ensures Valid() && InReach(t)
    {
      assert ([content] + queue)[1..] == queue;
      LinkedLength(due[0].at, due[1..], queue);
      StampSum(baseAt, content.delay);
      StartDelay((base + content.delay) % WRAP, content.dir);
      assert LastAt(baseAt, due) == LastAt(due[0].at, due[1..]) == LastAt(0, due);
    }

    /** The inner loop of _processChannel: the commands with no delay left, up to the first one with a delay. */
    method TakeQueue(kind: Kind, now: uint32, ghost t: int, base: uint32, ghost baseAt: int)
      requires now == Stamp(t) && Taking(base, baseAt, t)
      modifies this
      ensures Valid() && InReach(t) && capacity == old(capacity)
      ensures RunDue(kind, Abs(), t) == RunDue(kind, old(Abs()), t) && |due| <= |old(due)|
    {
      ghost var goal := RunDue(kind, Abs(), t);
      var started := false;
      while queue != [] && !started
        invariant if started then Valid() && InReach(t) else Taking(base, baseAt, t)
        invariant capacity == old(capacity) && RunDue(kind, Abs(), t) == goal && |due| <= |old(due)|
        decreases |queue|
      {
        started := TakeOne(kind, now, t, base, baseAt);
      }
    }

    /** One turn of that loop. The answer says that a command was found that still has to wait. */
    method TakeOne(kind: Kind, now: uint32, ghost t: int, base: uint32, ghost baseAt: int) returns (started: bool)
      requires now == Stamp(t) && Taking(base, baseAt, t) && queue != []
      modifies this
      ensures if started then Valid() && InReach(t) else Taking(base, baseAt, t)
      ensures capacity == old(capacity) && queue == old(queue)[1..] && |due| <= |old(due)|
      ensures RunDue(kind, Abs(), t) == RunDue(kind, old(Abs()), t)
    {
      hide RunDue;
      var content := queue[0];
      assert queue == [content] + queue[1..];
      queue := queue[1..];
      started := content.delay != 0;
      if started {
        StartQueued(t, base, baseAt, content);
      } else {
        RunFirst(kind, now, t, content.dir);
      }
    }

    /** One turn of the outer loop of _processChannel. */
    method RunWaiting(kind: Kind, now: uint32, ghost t: int)
      requires Valid() && now == Stamp(t) && InReach(t) && delayPending && due[0].at <= t
      modifies this
      ensures Valid() && InReach(t) && capacity == old(capacity) && |due| < |old(due)|
      ensures RunDue(kind, Abs(), t) == RunDue(kind, old(Abs()), t)
    {
      var base := delayEnd;
      ghost var baseAt := due[0].at;
      delayPending := false;
      RunFirst(kind, now, t, dir);
      LinkedLength(baseAt, due, queue);
      if capacity != 0 {
        TakeQueue(kind, now, t, base, baseAt);
      }
    }

    /** _processChannel: exactly what is due at t is carried out, and nothing that is left is. */
    method Process(kind: Kind, now: uint32, ghost t: int)
      requires Valid() && now == Stamp(t) && InReach(t)
      modifies this
      ensures Valid() && InReach(t) && capacity == old(capacity)
      ensures Abs() == SolenoidSpec.Process(kind, old(Abs()), t)
    {
      CheckOff(now, t);
      ghost var goal := RunDue(kind, Abs(), t);
      if due != [] {
        RemainExact(due[0].at, t);
      }
      while delayPending && Remain(delayEnd, now) == 0
        invariant Valid() && InReach(t) && capacity == old(capacity)
        invariant RunDue(kind, Abs(), t) == goal
        invariant due != [] ==> (Remain(delayEnd, now) == 0 <==> due[0].at <= t)
        decreases |due|
      {
        RunWaiting(kind, now, t);
        if due != [] {
          RemainExact(due[0].at, t);
        }
      }
    }

    /** _calcurateTime: the time left until the last waiting command is due, counted from the waiting deadline if that
        is over already. */
    method TimeToLast(now: uint32, ghost t: int) returns (time: uint32)
      requires Valid() && now == Stamp(t) && InReach(t) && delayPending
      ensures time == LastAt(0, due) - SolenoidSpec.Min(t, due[0].at)
    {
      RemainExact(due[0].at, t);
      time := Remain(delayEnd, now);
      LinkedLength(due[0].at, due[1..], queue);
      assert queue[0..] == queue;
      for k := 0 to |queue|
        invariant time == due[k].at - SolenoidSpec.Min(t, due[0].at)
        invariant Linked(due[k].at, due[k + 1..], queue[k..])
      {
        LinkedLength(due[k].at, due[k + 1..], queue[k..]);
        assert due[k + 1..][1..] == due[k + 2..] && queue[k..][1..] == queue[k + 1..];
        LinkedLength(due[k + 1].at, due[k + 2..], queue[k + 1..]);
        LastBehind(due, k + 1, k + 2);
        time := (time + queue[k].delay) % WRAP;
      }
    }

    /** The queueing branch of _actionOnDir. */
    method Enqueue(kind: Kind, now: uint32, ghost t: int, delay: uint32, d: Dir) returns (ok: bool)
      requires Valid() && now == Stamp(t) && InReach(t) && delay <= MAX_DELAY && capacity > 0 && delayPending
      modifies this
      ensures Valid() && InReach(t) && capacity == old(capacity)
      ensures var r := Command(kind, old(Abs()), capacity, t, delay, d);
              ok == r.Some? && Abs() == if ok then r.value else old(Abs())
    {
      var time := TimeToLast(now, t);
      LinkedLength(due[0].at, due[1..], queue);
      if |queue| >= capacity {
        return false;
      }
      var content := Content(if delay > time then delay - time else 0, d);
      QueuedDelay(due, t, delay, time);
      ghost var target := Target(QueuedAt(due, t, delay), d);
      LinkedBehind(due, queue, target, content);
      queue := queue + [content];
      due := due + [target];
      ok := true;
    }

    /** _actionOnDir, but for the trigger of the task, which is set again if schedule is returned. */
    method Order(kind: Kind, now: uint32, ghost t: int, delay: uint32, d: Dir) returns (ok: bool, schedule: bool)
      requires Valid() && now == Stamp(t) && InReach(t) && delay <= MAX_DELAY
      modifies this
      ensures Valid() && InReach(t) && capacity == old(capacity)
      ensures var r := Command(kind, old(Abs()), capacity, t, delay, d);
              ok == r.Some? && Abs() == if ok then r.value else old(Abs())
      ensures schedule == !(capacity > 0 && old(delayPending))
    {
      if capacity > 0 && delayPending {
        ok := Enqueue(kind, now, t, delay, d);
        return ok, false;
      }
      if delay != 0 {
        StampSum(t, delay);
        StartDelay((now + delay) % WRAP, d);
        if due != [] {
          LinkedLength(due[0].at, due[1..], queue);
        }
        due := [Target(t + delay, d)];
      } else {
        SwitchOn(kind, now, t, d);
      }
      return true, true;
    }

    /** pifSolenoid_ActionOff for this channel. */
    method Cancel()
      requires Valid()
      modifies this
      ensures Valid() && capacity == old(capacity)
      ensures Abs() == SolenoidSpec.Cancel(old(Abs()))
      ensures !onPending && due == [] && queue == [] && !delayPending
    {
      delayPending := false;
      due := [];
      queue := [];
      onPending := false;
      if state {
        SwitchOff();
      }
    }

    /** pifSolenoid_SetBuffer for this channel: the commands in a buffer set before are lost, the one that waits in
        front of them is not. */
    method SetBuffer(size: nat) returns (ok: bool)
      requires Valid()
      modifies this
      ensures Valid() && ok == (0 < size < 0xFFFF) && capacity == (if ok then size else 0)
      ensures Abs() == Apply(OnePoint, old(Abs()), DropQueue)
      ensures onPending == old(onPending) && onAt == old(onAt)
    {
      capacity := if 0 < size < 0xFFFF then size else 0;
      queue := [];
      due := if due == [] then [] else due[..1];
      ok := capacity != 0;
    }

    method SetInvalidDirection()
      requires Valid()
      modifies `currentDir, `acts
      ensures Valid() && Abs() == Apply(OnePoint, old(Abs()), ForgetDir)
    {
      currentDir := Invalid;
      acts := acts + [Forget];
    }

    method ChangeOnTime(milliseconds: nat)
      requires Valid() && milliseconds < 0x1_0000
      modifies `onTime
      ensures Valid() && Abs() == Apply(OnePoint, old(Abs()), Op.SetOnTime(milliseconds))
    {
      onTime := milliseconds;
    }
  }
}
