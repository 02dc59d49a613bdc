/** All channels of a solenoid instance, and the one task that serves them: source/actuator/pif_solenoid.c.
    Operations read the clock where the source does; a ghost argument says which absolute time each reading is. */
module Solenoid {
  import opened Options
  import opened Clock
  import opened SolenoidSpec
  import opened SolenoidRuns
  import opened SolenoidEffects
  import opened SolenoidChannel
  import opened Words

  const NO_WAIT: int := 0xFFFF_FFFF

  class Solenoid {
    const kind: Kind
    const channels: seq<SolenoidChannel>
    var trigger: Option<uint32>  // delay the task's trigger was set with, None when none is set
    ghost var setAt: int         // when it was set
    ghost var clock: int         // the last time anything was done
    ghost var release: int       // since when triggers release the task, which has not run since
    ghost const spent: int       // the longest time between the readings of the clock of one operation

    ghost predicate Distinct() {
      forall i, j :: 0 <= i < j < |channels| ==> channels[i] != channels[j]
    }

    ghost predicate ChannelValid(i: nat)
      requires i < |channels|
      reads `clock, channels[i]
    {
      && channels[i].Valid() && Sane(kind, channels[i].Abs())
      && (channels[i].onPending ==> channels[i].onAt <= clock + MAX_DELAY)
      && (channels[i].due != [] ==> channels[i].due[0].at <= clock + MAX_DELAY)
    }

    /** A deadline at time at is served: the trigger releases the task no later, or the deadline is over and the
        trigger releases it at once. */
    ghost predicate Served(at: int)
      reads this
    {
      trigger.Some? && setAt + trigger.value <= Max(at, clock)
    }

    ghost predicate ChannelServed(i: nat)
      requires i < |channels|
      reads this, channels[i]
    {
      && (channels[i].onPending ==> Served(channels[i].onAt))
      && (channels[i].due != [] ==> Served(channels[i].due[0].at))
    }

    /** The task has not been released for longer than a deadline is over, but for the time an operation takes. */
    ghost predicate ChannelPrompt(i: nat)
      requires i < |channels|
      reads `release, channels[i]
    {
      && (channels[i].onPending ==> release <= channels[i].onAt + spent)
      && (channels[i].due != [] ==> release <= channels[i].due[0].at + spent)
    }

    ghost predicate Valid()
      reads this, channels
    {
      && 0 <= spent <= HALF && Distinct()
      && forall i :: 0 <= i < |channels| ==> ChannelValid(i) && ChannelServed(i) && ChannelPrompt(i)
    }

    /** No deadline has been over for half a lap of the clock at t. */
    ghost predicate NotTooLate(t: int)
      reads this, channels
    {
      forall i :: 0 <= i < |channels| ==>
        && (channels[i].onPending ==> t - HALF <= channels[i].onAt)
        && (channels[i].due != [] ==> t - HALF <= channels[i].due[0].at)
    }

    /** At t the task has been released for half a lap of the clock at most, less the time an operation takes. */
    ghost predicate OnTime(t: int)
      reads this
    {
      trigger.Some? ==> t <= release + HALF - spent
    }

    /** That is all there is to see to, in whatever state operations have led to: then no deadline is missed by the
        wrap of the clock. */
    lemma OnTimeIsEnough(t: int)
      requires Valid() && OnTime(t)
      ensures NotTooLate(t)
    {
      forall i | 0 <= i < |channels|
        ensures channels[i].onPending ==> t - HALF <= channels[i].onAt
        ensures channels[i].due != [] ==> t - HALF <= channels[i].due[0].at
      {
        assert ChannelServed(i) && ChannelPrompt(i);
      }
    }

    constructor (kind: Kind, count: nat, onTime: nat, ghost spent: int)
      requires 0 < count < 0x100 && onTime < 0x1_0000 && 0 <= spent <= HALF
      ensures Valid() && this.kind == kind && |channels| == count && fresh(channels) && this.spent == spent
      ensures trigger == None
      ensures forall i :: 0 <= i < count ==> channels[i].Abs() == Start(onTime)
    {
      this.kind := kind;
      trigger, setAt, clock, release := None, 0, 0, 0;
      this.spent := spent;
      var made: seq<SolenoidChannel> := [];
      while |made| < count
        invariant |made| <= count && fresh(made)
        invariant forall i, j :: 0 <= i < j < |made| ==> made[i] != made[j]
        invariant forall i :: 0 <= i < |made| ==> made[i].Valid() && made[i].Abs() == Start(onTime)
      {
        var c := new SolenoidChannel(onTime);
        made := made + [c];
      }
      channels := made;
    }

    /** The shortest of wait and the times left of a channel. */
    method ShorterWait(i: nat, now: uint32, ghost t: int, wait: uint32) returns (shorter: uint32)
      requires i < |channels| && channels[i].Valid() && channels[i].InReach(t) && now == Stamp(t)
      ensures shorter <= wait
      ensures channels[i].onPending ==> t + shorter <= Max(channels[i].onAt, t) && shorter < NO_WAIT
      ensures channels[i].due != [] ==> t + shorter <= Max(channels[i].due[0].at, t) && shorter < NO_WAIT
      ensures shorter == wait || (channels[i].onPending && t + shorter == Max(channels[i].onAt, t))
              || (channels[i].due != [] && t + shorter == Max(channels[i].due[0].at, t))
    {
      var c := channels[i];
      shorter := wait;
      if c.onPending {
        RemainExact(c.onAt, t);
        var remain := Remain(c.onEnd, now);
        if remain < shorter {
          shorter := remain;
        }
      }
      if c.delayPending {
        RemainExact(c.due[0].at, t);
        var remain := Remain(c.delayEnd, now);
        if remain < shorter {
          shorter := remain;
        }
      }
    }

    /** Something of channel i is to be done at time at, or is over at t and to be done then. */
    ghost predicate Deadline(i: nat, at: int, t: int)
      requires i < |channels|
      reads channels[i]
    {
      || (channels[i].onPending && at == Max(channels[i].onAt, t))
      || (channels[i].due != [] && at == Max(channels[i].due[0].at, t))
    }

    /** A deadline at time at, that is new at t or of which the task already knows. */
    ghost predicate Known(at: int, t: int)
      reads this
    {
      t <= at + spent || (trigger.Some? && release <= at + spent)
    }

    ghost predicate ChannelKnown(i: nat, t: int)
      requires i < |channels|
      reads this, channels[i]
    {
      && (channels[i].onPending ==> Known(channels[i].onAt, t))
      && (channels[i].due != [] ==> Known(channels[i].due[0].at, t))
    }

    /** Sets the trigger to the earliest deadline of all channels, if there is any. A task that was released already and
        is to run at once goes on being released. */
    method Schedule(now: uint32, ghost t: int) returns (ghost which: nat)
      requires forall i :: 0 <= i < |channels| ==> channels[i].Valid() && channels[i].InReach(t) && ChannelKnown(i, t)
      requires now == Stamp(t) && clock <= t && 0 <= spent
      modifies `trigger, `setAt, `clock, `release
      ensures clock == t && forall i :: 0 <= i < |channels| ==> ChannelServed(i) && ChannelPrompt(i)
      ensures release == old(release) || (trigger.Some? && release == setAt + trigger.value)
      ensures (trigger == old(trigger) && setAt == old(setAt))
              || (trigger.Some? && which < |channels| && Deadline(which, setAt + trigger.value, t))
    {
      var wait: uint32 := NO_WAIT;
      which := 0;
      for i := 0 to |channels|
        invariant trigger == old(trigger) && setAt == old(setAt) && clock == old(clock) && release == old(release)
        invariant wait == NO_WAIT || (which < i && Deadline(which, t + wait, t))
        invariant forall k :: 0 <= k < i && channels[k].onPending ==>
                    t + wait <= Max(channels[k].onAt, t) && wait < NO_WAIT
        invariant forall k :: 0 <= k < i && channels[k].due != [] ==>
                    t + wait <= Max(channels[k].due[0].at, t) && wait < NO_WAIT
      {
        ghost var before := wait;
        wait := ShorterWait(i, now, t, wait);
        which := if wait == before then which else i;
      }
      clock := t;
      if wait == NO_WAIT {
        return;
      }
      SetTrigger(wait, t);
    }

    method SetTrigger(wait: uint32, ghost t: int)
      requires 0 <= spent && forall i :: 0 <= i < |channels| ==> ChannelKnown(i, t)
      requires forall i :: 0 <= i < |channels| && channels[i].onPending ==> t + wait <= Max(channels[i].onAt, t)
      requires forall i :: 0 <= i < |channels| && channels[i].due != [] ==> t + wait <= Max(channels[i].due[0].at, t)
      modifies `trigger, `setAt, `release
      ensures trigger == Some(wait) && setAt == t && (release == old(release) || release == t + wait)
      ensures forall i :: 0 <= i < |channels| ==> ChannelPrompt(i)
    {
      ghost var known := trigger.Some?;
      ghost var before := release;
      release := if known && before <= t && wait == 0 then before else t + wait;
      trigger, setAt := Some(wait), t;
      forall i | 0 <= i < |channels|
        ensures ChannelPrompt(i)
      {
        assert old(ChannelKnown(i, t));
      }
    }

    /** A run of the task, at t as to the channels; the clock is read again, at later, to set the next trigger. */
    method DoTask(now: uint32, ghost t: int, nowLater: uint32, ghost later: int) returns (ghost which: nat)
      requires Valid() && NotTooLate(t) && clock <= t <= later <= t + spent
      requires now == Stamp(t) && nowLater == Stamp(later)
      modifies this, channels
      ensures Valid() && clock == later
      ensures forall i :: 0 <= i < |channels| ==>
                channels[i].Abs() == Process(kind, old(channels[i].Abs()), t) && NothingDue(channels[i].Abs(), t)
      ensures forall i :: 0 <= i < |channels| ==> Effect(kind, old(channels[i].Abs()), Task(t), channels[i].Abs())
      ensures trigger.Some? ==> which < |channels| && Deadline(which, setAt + trigger.value, later)
    {
      hide Sane, SolenoidSpec.Process, NothingDue, Effect;
      forall i | 0 <= i < |channels|
        ensures ChannelValid(i) && channels[i].InReach(t)
      {
      }
      trigger := None;
      ProcessAll(now, t, later);
      forall i | 0 <= i < |channels|
        ensures Effect(kind, old(channels[i].Abs()), Task(t), channels[i].Abs())
      {
        assert old(ChannelValid(i));
        HasItsEffect(kind, old(channels[i].Abs()), Task(t));
      }
      which := Schedule(nowLater, later);
    }

    method ProcessAll(now: uint32, ghost t: int, ghost later: int)
      requires Distinct() && forall i :: 0 <= i < |channels| ==> ChannelValid(i) && channels[i].InReach(t)
      requires clock <= t <= later <= t + spent <= t + HALF && now == Stamp(t)
      modifies channels
      ensures forall i :: 0 <= i < |channels| ==>
                && channels[i].Abs() == Process(kind, old(channels[i].Abs()), t) && NothingDue(channels[i].Abs(), t)
                && channels[i].Valid() && Sane(kind, channels[i].Abs())
                && channels[i].InReach(later) && ChannelKnown(i, later)
    {
      hide Sane, SolenoidSpec.Process;
      for i := 0 to |channels|
        invariant forall k :: i <= k < |channels| ==> unchanged(channels[k])
        invariant forall k :: 0 <= k < i ==>
                    && channels[k].Valid() && channels[k].InReach(t)
                    && channels[k].Abs() == Process(kind, old(channels[k].Abs()), t)
      {
        assert old(ChannelValid(i));
        channels[i].Process(kind, now, t);
      }
      forall i | 0 <= i < |channels|
        ensures NothingDue(channels[i].Abs(), t) && Sane(kind, channels[i].Abs())
        ensures channels[i].InReach(later) && ChannelKnown(i, later)
      {
        assert old(ChannelValid(i));
        ProcessClears(kind, old(channels[i].Abs()), t);
        ProcessSane(kind, old(channels[i].Abs()), t);
      }
    }

    /** Time may pass and other channels may change: a channel left alone stays as it was, and its deadlines served. */
    twostate lemma StaysValid(i: nat)
      requires i < |channels| && unchanged(channels[i])
      requires old(ChannelValid(i)) && old(clock) <= clock
      ensures ChannelValid(i)
      ensures old(ChannelPrompt(i)) && release == old(release) ==> ChannelPrompt(i)
      ensures old(ChannelServed(i)) && trigger == old(trigger) && setAt == old(setAt) ==> ChannelServed(i)
    {
    }

    /** A change of one channel that leaves it valid and served leaves all so. */
    twostate lemma OneChanged(index: nat)
      requires index < |channels| && old(Valid()) && ChannelValid(index) && ChannelServed(index)
      requires ChannelPrompt(index)
      requires trigger == old(trigger) && setAt == old(setAt) && clock == old(clock) && release == old(release)
      requires forall k :: 0 <= k < |channels| && k != index ==> unchanged(channels[k])
      ensures Valid()
    {
      forall k | 0 <= k < |channels| && k != index
        ensures ChannelValid(k) && ChannelServed(k) && ChannelPrompt(k)
      {
        assert old(ChannelValid(k) && ChannelServed(k) && ChannelPrompt(k));
        StaysValid(k);
      }
    }

    /** _actionOnDir: a command that is not queued may bring the next deadline, so the trigger is set again. */
    method CommandChannel(index: nat, delay: uint32, dir: Dir, now: uint32, ghost t: int,
                          nowLater: uint32, ghost later: int) returns (ok: bool)
      requires Valid() && NotTooLate(later) && clock <= t <= later <= t + spent
      requires index < |channels| && delay <= MAX_DELAY && (kind == TwoPoint ==> dir != Invalid)
      requires now == Stamp(t) && nowLater == Stamp(later)
      modifies this, channels[index]
      ensures Valid()
      ensures channels[index].capacity == old(channels[index].capacity)
      ensures var c := channels[index];
              var r := Command(kind, old(c.Abs()), c.capacity, t, delay, dir);
              ok == r.Some? && c.Abs() == if ok then r.value else old(c.Abs())
    {
      var schedule;
      ok, schedule := OrderOne(index, delay, dir, now, t, later);
      if schedule {
        ScheduleAfter(index, nowLater, later);
      }
    }

    /** The command reaches the channel; the others stay as they are. */
    method OrderOne(index: nat, delay: uint32, dir: Dir, now: uint32, ghost t: int, ghost later: int)
        returns (ok: bool, schedule: bool)
      requires Valid() && NotTooLate(later) && clock <= t <= later <= t + spent && now == Stamp(t)
      requires index < |channels| && delay <= MAX_DELAY && (kind == TwoPoint ==> dir != Invalid)
      modifies channels[index]
      ensures forall k :: 0 <= k < |channels| && k != index ==> ChannelValid(k) && channels[k].InReach(later)
      ensures channels[index].Valid() && Sane(kind, channels[index].Abs()) && channels[index].InReach(later)
      ensures forall k :: 0 <= k < |channels| ==> ChannelKnown(k, later)
      ensures !schedule ==> Valid()
      ensures channels[index].capacity == old(channels[index].capacity)
      ensures var c := channels[index];
              var r := Command(kind, old(c.Abs()), c.capacity, t, delay, dir);
              ok == r.Some? && c.Abs() == if ok then r.value else old(c.Abs())
    {
      hide Command, Sane;
      assert ChannelValid(index) && ChannelServed(index) && ChannelPrompt(index);
      ok, schedule := OrderChannel(index, delay, dir, now, t, later);
      forall k | 0 <= k < |channels| && k != index
        ensures ChannelValid(k) && ChannelServed(k) && ChannelPrompt(k)
        ensures ChannelKnown(k, later) && channels[k].InReach(later)
      {
        assert old(ChannelValid(k) && ChannelServed(k) && ChannelPrompt(k) && channels[k].InReach(later));
        StaysValid(k);
      }
    }

    /** The same, as to that channel: its deadlines are those it had, or new ones. */
    method OrderChannel(index: nat, delay: uint32, dir: Dir, now: uint32, ghost t: int, ghost later: int)
        returns (ok: bool, schedule: bool)
      requires index < |channels| && ChannelValid(index) && ChannelServed(index) && ChannelPrompt(index)
      requires channels[index].InReach(t) && channels[index].InReach(later)
      requires clock <= t <= later <= t + spent <= t + HALF && now == Stamp(t)
      requires delay <= MAX_DELAY && (kind == TwoPoint ==> dir != Invalid)
      modifies channels[index]
      ensures channels[index].Valid() && Sane(kind, channels[index].Abs())
      ensures channels[index].InReach(later) && ChannelKnown(index, later)
      ensures !schedule ==> ChannelValid(index) && ChannelServed(index) && ChannelPrompt(index)
      ensures channels[index].capacity == old(channels[index].capacity)
      ensures var c := channels[index];
              var r := Command(kind, old(c.Abs()), c.capacity, t, delay, dir);
              ok == r.Some? && c.Abs() == if ok then r.value else old(c.Abs())
    {
      ghost var c := channels[index].Abs();
      CommandSane(kind, c, channels[index].capacity, t, delay, dir);
      CommandDeadlines(kind, c, channels[index].capacity, t, delay, dir);
      ok, schedule := channels[index].Order(kind, now, t, delay, dir);
    }

    method ScheduleAfter(index: nat, now: uint32, ghost t: int)
      requires index < |channels| && 0 <= spent <= HALF && Distinct() && now == Stamp(t) && clock <= t
      requires forall k :: 0 <= k < |channels| && k != index ==> ChannelValid(k) && channels[k].InReach(t)
      requires channels[index].Valid() && Sane(kind, channels[index].Abs()) && channels[index].InReach(t)
      requires forall k :: 0 <= k < |channels| ==> ChannelKnown(k, t)
      modifies `trigger, `setAt, `clock, `release
      ensures Valid()
    {
      var which := Schedule(now, t);
      forall k | 0 <= k < |channels|
        ensures ChannelValid(k)
      {
        if k != index {
          StaysValid(k);
        }
      }
    }

    /** pifSolenoid_ActionOnDir. Refused are an index out of range, a command without a direction for two coils, and
        one that finds the queue full; then nothing changes. */
    method ActionOnDir(index: nat, delay: nat, dir: Dir, now: uint32, ghost t: int,
                       nowLater: uint32, ghost later: int) returns (ok: bool)
      requires Valid() && NotTooLate(later) && clock <= t <= later <= t + spent && delay < 0x1_0000
      requires now == Stamp(t) && nowLater == Stamp(later)
      modifies this, if index < |channels| then {channels[index]} else {}
      ensures Valid()
      ensures index >= |channels| || (kind == TwoPoint && dir == Invalid) ==> !ok
      ensures index < |channels| && !(kind == TwoPoint && dir == Invalid) ==>
                var c := channels[index];
                var r := Command(kind, old(c.Abs()), c.capacity, t, delay * 1000, dir);
                ok == r.Some? && (ok ==> c.Abs() == r.value)
      ensures index < |channels| && !(kind == TwoPoint && dir == Invalid) ==>
                var c := channels[index];
                && c.capacity == old(c.capacity) && ok == !(c.capacity > 0 && |old(c.due)| > c.capacity)
                && Effect(kind, old(c.Abs()), Order(c.capacity, t, delay * 1000, dir), c.Abs())
      ensures !ok && index < |channels| ==> channels[index].Abs() == old(channels[index].Abs())
    {
      if index >= |channels| || (kind == TwoPoint && dir == Invalid) {
        return false;
      }
      hide Effect, Sane;
      assert ChannelValid(index);
      HasItsEffect(kind, channels[index].Abs(), Order(channels[index].capacity, t, delay * 1000, dir));
      ok := CommandChannel(index, delay * 1000, dir, now, t, nowLater, later);
    }

    /** pifSolenoid_ActionOff. A trigger still set stays: it finds nothing due on this channel. */
    method ActionOff(index: nat) returns (ok: bool)
      requires Valid()
      modifies if index < |channels| then {channels[index]} else {}
      ensures Valid() && ok == (index < |channels|)
      ensures ok ==> channels[index].Abs() == Cancel(old(channels[index].Abs()))
      ensures ok ==> var c := channels[index];
                     && !c.state && c.acts == old(c.acts) + (if old(c.state) then [Off] else [])
                     && c.due == [] && !c.onPending && c.queue == [] && !c.delayPending
    {
      if index >= |channels| {
        return false;
      }
      assert ChannelValid(index) && ChannelServed(index) && ChannelPrompt(index);
      CancelSane(kind, channels[index].Abs());
      channels[index].Cancel();
      OneChanged(index);
      ok := true;
    }

    method SetBuffer(index: nat, size: nat) returns (ok: bool)
      requires Valid()
      modifies if index < |channels| then {channels[index]} else {}
      ensures Valid() && ok == (index < |channels| && 0 < size < 0xFFFF)
      ensures index < |channels| ==> channels[index].Abs() == Apply(kind, old(channels[index].Abs()), DropQueue)
      ensures index < |channels| ==> channels[index].capacity == if ok then size else 0
    {
      if index >= |channels| {
        return false;
      }
      assert ChannelValid(index) && ChannelServed(index) && ChannelPrompt(index);
      ApplySane(kind, channels[index].Abs(), DropQueue);
      ok := channels[index].SetBuffer(size);
      OneChanged(index);
    }

    method SetInvalidDirection(index: nat) returns (ok: bool)
      requires Valid()
      modifies if index < |channels| then {channels[index]} else {}
      ensures Valid() && ok == (index < |channels|)
      ensures ok ==> channels[index].Abs() == Apply(kind, old(channels[index].Abs()), ForgetDir)
    {
      if index >= |channels| {
        return false;
      }
      assert ChannelValid(index) && ChannelServed(index) && ChannelPrompt(index);
      ApplySane(kind, channels[index].Abs(), ForgetDir);
      channels[index].SetInvalidDirection();
      OneChanged(index);
      ok := true;
    }

    method SetOnTime(index: nat, onTime: nat) returns (ok: bool)
      requires Valid() && onTime < 0x1_0000
      modifies if index < |channels| then {channels[index]} else {}
      ensures Valid() && ok == (index < |channels|)
      ensures ok ==> channels[index].Abs() == Apply(kind, old(channels[index].Abs()), Op.SetOnTime(onTime))
    {
      if index >= |channels| {
        return false;
      }
      assert ChannelValid(index) && ChannelServed(index) && ChannelPrompt(index);
      channels[index].ChangeOnTime(onTime);
      OneChanged(index);
      ok := true;
    }
  }
}
