/** All channels of a servo instance, and the task that moves them: source/actuator/pif_servo.c. */
module Servo {
  import opened Clock
  import opened Options
  import opened ServoSpec
  import opened ServoChannel
  import opened ServoEvents
  import opened ServoEffects
  import opened Words

  const KEEP: int16 := -0x8000

  /** Commands that start a move, as far as they are accepted. */
  predicate Moves(cmd: Command) {
    cmd.MoveTo? || cmd.MoveAtSpeed?
  }

  lemma OnlyMovesStart(c: Channel, cmd: Command, t: int)
    requires Sane(c) && Begun(c, t) && Exact(cmd)
    requires Apply(c, cmd, t).c.move.Some? && !(Moves(cmd) && Apply(c, cmd, t).ok)
    ensures c.move.Some?
  {
  }

  class Servo {
    const channels: seq<ServoChannel>
    const period: nat       // microseconds from one update of a move to the next
    var wake: Option<nat>   // how long after it was set the task's trigger comes, None while the task sleeps

    ghost predicate Distinct() {
      forall i, j :: 0 <= i < j < |channels| ==> channels[i] != channels[j]
    }

    /** What moves is not forgotten: the task comes again, no later than a period. */
    ghost predicate Awake()
      reads this, channels
    {
      (exists i :: 0 <= i < |channels| && channels[i].moving) ==> wake.Some? && wake.value <= period
    }

    ghost predicate Valid()
      reads this, channels
    {
      Distinct() && Awake() && forall i :: 0 <= i < |channels| ==> channels[i].Valid()
    }

    ghost predicate InReach(t: int)
      reads this, channels
    {
      forall i :: 0 <= i < |channels| ==> channels[i].InReach(t)
    }

    constructor (count: nat, periodMs: nat)
      requires 0 < count <= 16 && 0 < periodMs < 0x1_0000
      ensures Valid() && |channels| == count && period == periodMs * 1000 && fresh(channels) && wake == None
      ensures forall i :: 0 <= i < count ==> channels[i].State() == Start()
    {
      period, wake := periodMs * 1000, None;
      var made: seq<ServoChannel> := [];
      while |made| < count
        invariant |made| <= count && fresh(made)
        invariant forall i, j :: 0 <= i < j < |made| ==> made[i] != made[j]
        invariant forall i :: 0 <= i < |made| ==> made[i].Valid() && made[i].State() == Start()
      {
        var c := new ServoChannel();
        made := made + [c];
      }
      channels := made;
    }

    /** _doTask: every move gets to where it should be at t. arrived tells for which channels evt_arrive is called. */
    method DoTask(now: uint32, ghost t: int) returns (arrived: seq<bool>)
      requires Valid() && InReach(t) && now == Stamp(t)
      modifies this, channels
      ensures Valid() && InReach(t) && |arrived| == |channels|
      ensures forall i :: 0 <= i < |channels| ==>
                && channels[i].State() == Update(old(channels[i].State()), t)
                && arrived[i] == (EndingOf(old(channels[i].State()), Run, t) == Some(Reported))
      ensures forall i :: 0 <= i < |channels| ==>
                && Effect(old(channels[i].State()), Run, t, Outcome(true, channels[i].State()))
                && arrived[i] == (old(channels[i].moving) && !channels[i].moving)
      ensures wake == if exists i :: 0 <= i < |channels| && channels[i].moving then Some(period) else None
    {
      hide Sane, Update, EndingOf, ServoSpec.StartMove, Effect;
      arrived := UpdateAll(now, t);
      forall i | 0 <= i < |channels|
        ensures Effect(old(channels[i].State()), Run, t, Outcome(true, channels[i].State()))
        ensures arrived[i] == (old(channels[i].moving) && !channels[i].moving)
      {
        RunHasItsEffect(old(channels[i].State()), t);
      }
      var moving := AnyMoves();
      wake := if moving then Some(period) else None;
    }

    lemma RunHasItsEffect(c: Channel, t: int)
      requires Sane(c) && Begun(c, t)
      ensures Effect(c, Run, t, Outcome(true, Update(c, t)))
      ensures EndingOf(c, Run, t) == Some(Reported) <==> c.move.Some? && Update(c, t).move == None
    {
      HasItsEffect(c, Run, t);
    }

    method UpdateAll(now: uint32, ghost t: int) returns (arrived: seq<bool>)
      requires Valid() && InReach(t) && now == Stamp(t)
      modifies channels
      ensures |arrived| == |channels|
      ensures forall i :: 0 <= i < |channels| ==>
                && channels[i].Valid() && channels[i].InReach(t)
                && channels[i].State() == Update(old(channels[i].State()), t)
                && arrived[i] == (EndingOf(old(channels[i].State()), Run, t) == Some(Reported))
    {
      hide Sane, Update, EndingOf, ServoSpec.StartMove;
      arrived := [];
      for i := 0 to |channels|
        invariant |arrived| == i && forall k :: i <= k < |channels| ==> unchanged(channels[k])
        invariant forall k :: 0 <= k < i ==>
                    && channels[k].Valid() && channels[k].InReach(t)
                    && channels[k].State() == Update(old(channels[k].State()), t)
                    && arrived[k] == (EndingOf(old(channels[k].State()), Run, t) == Some(Reported))
      {
        var over := UpdateOne(i, now, t);
        arrived := arrived + [over];
      }
    }

    method UpdateOne(i: nat, now: uint32, ghost t: int) returns (over: bool)
      requires i < |channels| && channels[i].Valid() && channels[i].InReach(t) && now == Stamp(t)
      modifies channels[i]
      ensures channels[i].Valid() && channels[i].InReach(t)
      ensures channels[i].State() == Update(old(channels[i].State()), t)
      ensures over == (EndingOf(old(channels[i].State()), Run, t) == Some(Reported))
    {
      over := false;
      if channels[i].moving {
        over := channels[i].Update(now, t);
      }
    }

    method AnyMoves() returns (moving: bool)
      ensures moving == exists i :: 0 <= i < |channels| && channels[i].moving
    {
      moving := false;
      for i := 0 to |channels|
        invariant moving == exists k :: 0 <= k < i && channels[k].moving
      {
        if channels[i].moving {
          moving := true;
        }
      }
    }

    /** The command reaches one channel. */
    method CommandOne(c: ServoChannel, cmd: Command, now: uint32, ghost t: int) returns (ok: bool)
      requires c.Valid() && c.InReach(t) && now == Stamp(t) && Exact(cmd) && cmd != Run
      modifies c
      ensures c.Valid() && c.InReach(t) && Outcome(ok, c.State()) == Apply(old(c.State()), cmd, t)
    {
      ok := true;
      match cmd
      case SetRange(minPulse, maxPulse, minAngle, maxAngle) =>
        ok := c.SetRange(minPulse, maxPulse, minAngle, maxAngle, now, t);
      case SetTrim(trim) => ok := c.SetTrim(trim, t);
      case SetReverse(reverse) => c.SetReverse(reverse, t);
      case SetProfile(profile) => c.SetProfile(profile, t);
      case SetAngle(angle) => c.SetAngle(angle, t);
      case SetPulse(pulse) => ok := c.SetPulse(pulse, t);
      case MoveTo(angle, time) => c.StartMove(angle, time, now, t);
      case MoveAtSpeed(angle, speed) => ok := c.MoveAtSpeed(angle, speed, now, t);
      case Stop => c.StopMove(now, t);
      case Detach => c.Detach(t);
    }

    /** The functions that take the index of a channel. An index out of range is refused with nothing changed. */
    method Do(index: nat, cmd: Command, now: uint32, ghost t: int) returns (ok: bool)
      requires Valid() && InReach(t) && now == Stamp(t) && Exact(cmd) && cmd != Run
      modifies `wake, if index < |channels| then {channels[index]} else {}
      ensures Valid() && InReach(t)
      ensures index >= |channels| ==> !ok && wake == old(wake)
      ensures index < |channels| ==> Outcome(ok, channels[index].State()) == Apply(old(channels[index].State()), cmd, t)
      ensures index < |channels| ==> Effect(old(channels[index].State()), cmd, t, Outcome(ok, channels[index].State()))
      ensures wake == if ok && Moves(cmd) then Some(0) else old(wake)
    {
      hide Sane, Apply, Effect;
      if index >= |channels| {
        return false;
      }
      ghost var before := channels[index].State();
      ok := CommandOne(channels[index], cmd, now, t);
      HasItsEffect(before, cmd, t);
      if ok && Moves(cmd) {
        wake := Some(0);
      } else if channels[index].moving {
        OnlyMovesStart(before, cmd, t);
        assert old(channels[index].moving);
      }
      assert Awake() by {
        forall i | 0 <= i < |channels| && channels[i].moving
          ensures wake.Some? && wake.value <= period
        {
          assert wake == Some(0) || old(channels[i].moving);
        }
      }
    }

    lemma MoveHasItsEffect(c: Channel, angle: int16, time: uint16, t: int)
      requires Sane(c) && Begun(c, t)
      ensures Effect(c, MoveTo(angle, time), t, Outcome(true, StartMove(c, angle, time, t)))
    {
      HasItsEffect(c, MoveTo(angle, time), t);
    }

    /** pifServo_MoveSync: one start for all channels that are not to be kept as they are. */
    method MoveSync(angles: seq<int16>, time: uint16, now: uint32, ghost t: int)
      requires Valid() && InReach(t) && now == Stamp(t) && |angles| == |channels|
      modifies this, channels
      ensures Valid() && InReach(t) && wake == Some(0)
      ensures forall i :: 0 <= i < |channels| ==>
                channels[i].State() == if angles[i] == KEEP then old(channels[i].State())
                                       else StartMove(old(channels[i].State()), angles[i], time, t)
      ensures forall i :: 0 <= i < |channels| && angles[i] != KEEP ==>
                Effect(old(channels[i].State()), MoveTo(angles[i], time), t, Outcome(true, channels[i].State()))
    {
      hide Sane, Update, EndingOf, ServoSpec.StartMove, Effect;
      for i := 0 to |channels|
        invariant forall k :: i <= k < |channels| ==> unchanged(channels[k])
        invariant forall k :: 0 <= k < i ==>
                    && channels[k].Valid() && channels[k].InReach(t)
                    && channels[k].State() == if angles[k] == KEEP then old(channels[k].State())
                                              else StartMove(old(channels[k].State()), angles[k], time, t)
      {
        if angles[i] != KEEP {
          channels[i].StartMove(angles[i], time, now, t);
        }
      }
      forall i | 0 <= i < |channels| && angles[i] != KEEP
        ensures Effect(old(channels[i].State()), MoveTo(angles[i], time), t, Outcome(true, channels[i].State()))
      {
        MoveHasItsEffect(old(channels[i].State()), angles[i], time, t);
      }
      wake := Some(0);
    }
  }
}
