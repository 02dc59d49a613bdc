/** One channel of source/actuator/pif_servo.c, with the start of its move as a value of the wrapping clock. Every
    operation is shown to do what ServoSpec says on a clock that does not wrap. */
module ServoChannel {
  import opened Clock
  import opened Options
  import opened ServoMath
  import opened ServoSpec
  import opened Words

  class ServoChannel {
    var minPulse: uint16
    var maxPulse: uint16
    var minAngle: int16
    var maxAngle: int16
    var trim: int16
    var reverse: bool
    var profile: Profile
    var pulse: uint16       // given last to act_control, 0 while detached
    var angle: int16
    var moving: bool
    var moveProfile: Profile
    var startAngle: int16
    var targetAngle: int16
    var moveStart: uint32   // on the microsecond clock
    var moveTime: uint16    // milliseconds
    ghost var startAt: int            // moveStart on the clock that does not wrap
    ghost var outputs: seq<uint16>    // what act_control has been given

    function Settings(): Range
      reads this
    {
      Range(minPulse, maxPulse, minAngle, maxAngle, trim, reverse)
    }

    ghost function State(): Channel
      reads this
    {
      Channel(Settings(), profile, pulse, angle,
              if moving then Some(Move(startAngle, targetAngle, startAt, moveTime, moveProfile)) else None, outputs)
    }

    ghost predicate Stamped()
      reads this
    {
      moving ==> moveStart == Stamp(startAt)
    }

    ghost predicate Valid()
      reads this
    {
      Sane(State()) && Stamped()
    }

    /** The move under way started less than a lap of the clock before t. */
    ghost predicate InReach(t: int)
      reads this
    {
      moving ==> 0 <= t - startAt < WRAP
    }

    constructor ()
      ensures Valid() && State() == Start()
    {
      minPulse, maxPulse, minAngle, maxAngle, trim, reverse := 1000, 2000, 0, 1800, 0, false;
      profile, pulse, angle := Linear, 0, 0;
      moving, moveProfile, startAngle, targetAngle, moveStart, moveTime := false, Linear, 0, 0, 0, 0;
      startAt, outputs := 0, [];
      new;
      assert State() == Start();
    }

    method Output(pulse: uint16)
      requires Shown(this.pulse, outputs)
      modifies `pulse, `outputs
      ensures State() == ServoSpec.Output(old(State()), pulse)
    {
      if pulse == this.pulse {
        return;
      }
      outputs := outputs + [pulse];
      this.pulse := pulse;
    }

    method PutAngle(angle: int16)
      requires Settings().Valid() && Settings().Has(angle) && Shown(pulse, outputs)
      modifies `angle, `pulse, `outputs
      ensures State() == ServoSpec.PutAngle(old(State()), angle)
    {
      this.angle := angle;
      Output(Settings().AngleToPulse(angle));
    }

    lemma ElapsedByClock(now: uint32, t: int)
      requires moving && Stamped() && InReach(t) && now == Stamp(t)
      ensures (now - moveStart) % WRAP / 1000 == (t - startAt) / 1000
    {
      StampDifference(t, startAt);
    }

    method Update(now: uint32, ghost t: int) returns (over: bool)
      requires Valid() && moving && InReach(t) && now == Stamp(t)
      modifies `angle, `pulse, `outputs, `moving
      ensures Valid() && State() == ServoSpec.Update(old(State()), t) && over == !moving
    {
      ElapsedByClock(now, t);
      var share := Progress((now - moveStart) % WRAP / 1000, moveTime, moveProfile);
      if share >= FULL {
        PutAngle(targetAngle);
        moving := false;
        return true;
      }
      PutAngle(Position(startAngle, targetAngle, share));
      over := false;
    }

    method CurrentAngle(now: uint32, ghost t: int) returns (a: int16)
      requires Valid() && InReach(t) && now == Stamp(t)
      modifies `angle, `pulse, `outputs, `moving
      ensures Valid() && State() == ServoSpec.Update(old(State()), t) && a == angle
    {
      if moving {
        var over := Update(now, t);
      }
      a := angle;
    }

    method StopMove(now: uint32, ghost t: int)
      requires Valid() && InReach(t) && now == Stamp(t)
      modifies `angle, `pulse, `outputs, `moving
      ensures Valid() && State() == ServoSpec.StopMove(old(State()), t)
    {
      if !moving {
        return;
      }
      var over := Update(now, t);
      moving := false;
    }

    method StartMove(angle: int16, time: uint16, now: uint32, ghost t: int)
      requires Valid() && InReach(t) && now == Stamp(t)
      modifies this
      ensures Valid() && InReach(t) && State() == ServoSpec.StartMove(old(State()), angle, time, t)
    {
      var target := Settings().ClampAngle(angle);
      var jump := pulse == 0;
      if jump {
        PutAngle(target);
      } else {
        var here := CurrentAngle(now, t);
      }
      SetMove(target, if jump then 0 else time, now, t);
    }

    method SetMove(target: int16, time: uint16, now: uint32, ghost t: int)
      requires now == Stamp(t)
      modifies `startAngle, `targetAngle, `moveStart, `moveTime, `moveProfile, `moving, `startAt
      ensures Stamped() && InReach(t) && State() == old(State()).(move := Some(Move(angle, target, t, time, profile)))
    {
      startAngle := angle;
      targetAngle := target;
      moveTime := time;
      moveProfile := profile;
      SetStart(now, t);
    }

    /** The move is under way from now on. */
    method SetStart(now: uint32, ghost t: int)
      modifies `moveStart, `moving, `startAt
      ensures moving && moveStart == now && startAt == t
    {
      moveStart := now;
      moving := true;
      startAt := t;
    }

    // -------------------------------------------------------------- commands

    method SetRange(minPulse: uint16, maxPulse: uint16, minAngle: int16, maxAngle: int16, now: uint32, ghost t: int)
        returns (ok: bool)
      requires Valid() && InReach(t) && now == Stamp(t)
      requires Exact(Command.SetRange(minPulse, maxPulse, minAngle, maxAngle))
      modifies this
      ensures Valid() && InReach(t)
      ensures Outcome(ok, State()) == Apply(old(State()), Command.SetRange(minPulse, maxPulse, minAngle, maxAngle), t)
    {
      hide Sane, Shown, Agree, Refit, Apply, ServoSpec.StopMove;
      SaneIs(State());
      RangeIsChanged(State(), minPulse, maxPulse, minAngle, maxAngle, t);
      if minPulse <= Abs(trim) || minPulse >= maxPulse || minAngle == -0x8000 || minAngle >= maxAngle {
        return false;
      }
      StopMove(now, t);
      ghost var stopped := State();
      this.minPulse, this.maxPulse, this.minAngle, this.maxAngle := minPulse, maxPulse, minAngle, maxAngle;
      HoldAngle(stopped);
      ok := true;
    }

    lemma RangeIsChanged(c: Channel, minPulse: uint16, maxPulse: uint16, minAngle: int16, maxAngle: int16, t: int)
      requires Sane(c) && Begun(c, t) && Exact(Command.SetRange(minPulse, maxPulse, minAngle, maxAngle))
      ensures var r := Apply(c, Command.SetRange(minPulse, maxPulse, minAngle, maxAngle), t);
              if minPulse <= Abs(c.range.trim) || minPulse >= maxPulse || minAngle == -0x8000 || minAngle >= maxAngle
              then r == Outcome(false, c)
              else
                var range := Range(minPulse, maxPulse, minAngle, maxAngle, c.range.trim, c.range.reverse);
                range.Valid() && r == Outcome(true, Refit(ServoSpec.StopMove(c, t), range)) && Sane(r.c)
    {
    }

    /** The angle is held within a new range. */
    method HoldAngle(ghost c: Channel)
      requires Sane(c) && c.move == None && Settings().Valid() && State() == c.(range := Settings())
      modifies `angle, `pulse, `outputs
      ensures State() == Refit(c, Settings())
    {
      if pulse != 0 {
        PutAngle(Settings().ClampAngle(angle));
      } else {
        angle := Settings().ClampAngle(angle);
      }
    }

    method SetTrim(trim: int16, ghost t: int) returns (ok: bool)
      requires Valid() && InReach(t)
      modifies this
      ensures Valid() && InReach(t) && Outcome(ok, State()) == Apply(old(State()), Command.SetTrim(trim), t)
    {
      if Abs(trim) >= minPulse {
        return false;
      }
      this.trim := trim;
      if pulse != 0 {
        PutAngle(angle);
      }
      ok := true;
    }

    method SetReverse(reverse: bool, ghost t: int)
      requires Valid() && InReach(t)
      modifies this
      ensures Valid() && InReach(t) && Outcome(true, State()) == Apply(old(State()), Command.SetReverse(reverse), t)
    {
      this.reverse := reverse;
      if pulse != 0 {
        PutAngle(angle);
      }
    }

    method SetProfile(profile: Profile, ghost t: int)
      requires Valid() && InReach(t)
      modifies this
      ensures Valid() && InReach(t) && Outcome(true, State()) == Apply(old(State()), Command.SetProfile(profile), t)
    {
      this.profile := profile;
    }

    method SetAngle(angle: int16, ghost t: int)
      requires Valid() && InReach(t)
      modifies this
      ensures Valid() && InReach(t) && Outcome(true, State()) == Apply(old(State()), Command.SetAngle(angle), t)
    {
      moving := false;
      PutAngle(Settings().ClampAngle(angle));
    }

    method SetPulse(pulse: uint16, ghost t: int) returns (ok: bool)
      requires Valid() && InReach(t)
      modifies this
      ensures Valid() && InReach(t) && Outcome(ok, State()) == Apply(old(State()), Command.SetPulse(pulse), t)
    {
      if pulse == 0 {
        return false;
      }
      moving := false;
      angle := Settings().PulseToAngle(pulse);
      Output(pulse);
      ok := true;
    }

    method MoveAtSpeed(angle: int16, speed: uint16, now: uint32, ghost t: int) returns (ok: bool)
      requires Valid() && InReach(t) && now == Stamp(t)
      modifies this
      ensures Valid() && InReach(t)
      ensures Outcome(ok, State()) == Apply(old(State()), Command.MoveAtSpeed(angle, speed), t)
    {
      if speed == 0 {
        return false;
      }
      var target := Settings().ClampAngle(angle);
      var distance: nat := 0;
      if pulse != 0 {
        var here: int := CurrentAngle(now, t);
        distance := Abs(target - here);
      }
      var time := TimeAtSpeed(distance, speed);
      if time > 0xFFFF {
        return false;
      }
      StartMove(target, time, now, t);
      ok := true;
    }

    method Detach(ghost t: int)
      requires Valid() && InReach(t)
      modifies this
      ensures Valid() && InReach(t) && Outcome(true, State()) == Apply(old(State()), Command.Detach, t)
    {
      moving := false;
      Output(0);
    }
  }
}
