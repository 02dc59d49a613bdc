/** What each command and a run of the task do to a channel of source/actuator/pif_servo.c, told by the angle, the pulse
    and the move that it has before and after: what include/actuator/pif_servo.h promises of them. */
module ServoEffects {
  import opened Options
  import opened Words
  import opened ServoMath
  import opened ServoSpec

  // ---------------------------------------------------------------- trim and reverse

  /** The trim is added to every pulse, up to the limit of 16 bits. */
  lemma TrimIsAdded(r: Range, angle: int16)
    requires r.Valid() && r.Has(angle)
    ensures r.(trim := 0).Valid()
    ensures var plain := r.(trim := 0).AngleToPulse(angle);
            && r.minPulse <= plain <= r.maxPulse
            && r.AngleToPulse(angle) == if plain + r.trim > 0xFFFF then 0xFFFF else plain + r.trim
  {
    hide Scaled;
    assert r.(trim := 0).Pulse(angle) == r.Pulse(angle) - r.trim;
  }

  /** Reversing mirrors every pulse between those of the ends. */
  lemma ReverseMirrors(r: Range, angle: int16)
    requires r.Valid() && r.Has(angle) && r.trim == 0
    ensures r.AngleToPulse(angle) + r.(reverse := !r.reverse).AngleToPulse(angle) == r.minPulse + r.maxPulse
  {
  }

  // ---------------------------------------------------------------- what a channel is, and is given

  /** The angle at t: where the move under way has got to, or where the channel is. */
  function Here(c: Channel, t: int): (a: int16)
    requires Sane(c) && Begun(c, t)
    ensures c.range.Has(a)
  {
    if c.move == None then c.angle
    else
      MoveIsMonotone(c.move.value, t, t);
      AngleAt(c.move.value, t)
  }

  function PulseHere(c: Channel, t: int): (pulse: uint16)
    requires Sane(c) && Begun(c, t)
  {
    if c.move == None then c.pulse else c.range.AngleToPulse(Here(c, t))
  }

  /** No angle of the range is nearer. */
  ghost predicate Nearest(r: Range, angle: int, a: int16) {
    r.Has(a) && forall other :: r.Has(other) ==> Abs(a - angle) <= Abs(other - angle)
  }

  /** act_control is called for a pulse that changes, and only then. */
  predicate Given(c: Channel, next: Channel, pulse: uint16) {
    next.pulse == pulse && next.outputs == (if pulse == c.pulse then c.outputs else c.outputs + [pulse])
  }

  predicate SameSetup(c: Channel, next: Channel) {
    next.range == c.range && next.profile == c.profile
  }

  /** The channel is put where its move has got to. */
  predicate PutHere(c: Channel, t: int, next: Channel)
    requires Sane(c) && Begun(c, t)
  {
    SameSetup(c, next) && next.angle == Here(c, t) && Given(c, next, PulseHere(c, t))
  }

  /** The move that is left of the one under way. */
  predicate MoveLeft(c: Channel, t: int, move: Option<Move>) {
    move == if c.move.Some? && t - c.move.value.at >= c.move.value.time * 1000 then None else c.move
  }

  // ---------------------------------------------------------------- the commands

  /** pifServo_Detach stops the pulse and the move; where the channel was is kept. */
  predicate Detached(c: Channel, r: Outcome) {
    r.ok && SameSetup(c, r.c) && r.c.angle == c.angle && r.c.move == None && Given(c, r.c, 0)
  }

  /** An attached channel gets the pulse of its angle with a new setting, a detached one nothing. */
  predicate Refitted(c: Channel, range: Range, next: Channel)
    requires range.Valid() && range.Has(c.angle)
  {
    && next.range == range && next.profile == c.profile && next.angle == c.angle && next.move == c.move
    && Given(c, next, if c.pulse == 0 then 0 else range.AngleToPulse(c.angle))
  }

  /** pifServo_SetTrim refuses a trim that is as large as the least pulse. */
  predicate TrimSet(c: Channel, trim: int16, r: Outcome)
    requires Sane(c)
  {
    if Abs(trim) >= c.range.minPulse then r == Outcome(false, c)
    else r.ok && Refitted(c, c.range.(trim := trim), r.c)
  }

  predicate ReverseSet(c: Channel, reverse: bool, r: Outcome)
    requires Sane(c)
  {
    r.ok && Refitted(c, c.range.(reverse := reverse), r.c)
  }

  /** pifServo_SetProfile concerns moves to come. */
  predicate ProfileSet(c: Channel, profile: Profile, r: Outcome) {
    r == Outcome(true, c.(profile := profile))
  }

  /** pifServo_SetPulse gives the pulse as it is and takes over the angle whose pulse it is. */
  predicate PulseSet(c: Channel, pulse: uint16, r: Outcome)
    requires Sane(c)
  {
    if pulse == 0 then r == Outcome(false, c)
    else r.ok && SameSetup(c, r.c) && r.c.angle == c.range.PulseToAngle(pulse) && r.c.move == None
         && Given(c, r.c, pulse)
  }

  /** pifServo_SetAngle goes to the angle, or the nearest one of the range, at once. */
  ghost predicate AngleSet(c: Channel, angle: int16, r: Outcome)
    requires Sane(c)
  {
    r.ok && SameSetup(c, r.c) && r.c.move == None && Nearest(c.range, angle, r.c.angle)
    && Given(c, r.c, c.range.AngleToPulse(r.c.angle))
  }

  predicate Stopped(c: Channel, t: int, r: Outcome)
    requires Sane(c) && Begun(c, t)
  {
    r.ok && PutHere(c, t, r.c) && r.c.move == None
  }

  /** pifServo_MoveTo starts from where the channel is, with the profile set last; a detached channel goes to its target
      at once. */
  ghost predicate MoveStarted(c: Channel, angle: int16, time: int, t: int, r: Outcome)
    requires Sane(c) && Begun(c, t)
  {
    && r.ok && SameSetup(c, r.c) && r.c.move.Some?
    && var m := r.c.move.value;
       && Nearest(c.range, angle, m.target) && m.start == r.c.angle && m.at == t && m.profile == c.profile
       && if c.pulse == 0 then
            m.time == 0 && r.c.angle == m.target && Given(c, r.c, c.range.AngleToPulse(m.target))
          else
            m.time == time && PutHere(c, t, r.c)
  }

  /** So much of 0.1 degrees takes so many ms at a speed in degrees per second, and no fewer. */
  predicate LeastTime(distance: nat, speed: nat, time: nat) {
    distance * 100 <= time * speed && (time > 0 ==> (time - 1) * speed < distance * 100)
  }

  /** pifServo_MoveAtSpeed takes the least time in which the speed is not passed, and refuses more than 65535 ms; but a
      channel that moves is put where it has got to even then. */
  ghost predicate SpeedTaken(c: Channel, angle: int16, speed: uint16, t: int, target: int16, time: nat, r: Outcome)
    requires Sane(c) && Begun(c, t)
  {
    if speed == 0 then r == Outcome(false, c)
    else
      && Nearest(c.range, angle, target)
      && LeastTime(if c.pulse == 0 then 0 else Abs(target - Here(c, t)), speed, time)
      && if time <= 0xFFFF then MoveStarted(c, angle, time, t, r)
         else !r.ok && PutHere(c, t, r.c) && MoveLeft(c, t, r.c.move)
  }

  /** pifServo_SetRange stops a move; an attached channel gets the pulse of its angle, held within the new range. */
  ghost predicate RangeSet(c: Channel, minPulse: uint16, maxPulse: uint16, minAngle: int16, maxAngle: int16, t: int,
                           r: Outcome)
    requires Sane(c) && Begun(c, t)
  {
    if minPulse <= Abs(c.range.trim) || minPulse >= maxPulse || minAngle == -0x8000 || minAngle >= maxAngle then
      r == Outcome(false, c)
    else
      && r.ok && r.c.range == Range(minPulse, maxPulse, minAngle, maxAngle, c.range.trim, c.range.reverse)
      && r.c.profile == c.profile && r.c.move == None && Nearest(r.c.range, Here(c, t), r.c.angle)
      && r.c.range.Valid() && r.c.pulse == (if c.pulse == 0 then 0 else r.c.range.AngleToPulse(r.c.angle))
      && var stop := PulseHere(c, t);
         r.c.outputs == c.outputs + (if stop != c.pulse then [stop] else [])
                        + (if r.c.pulse != stop then [r.c.pulse] else [])
  }

  predicate Updated(c: Channel, t: int, r: Outcome)
    requires Sane(c) && Begun(c, t)
  {
    r.ok && PutHere(c, t, r.c) && MoveLeft(c, t, r.c.move)
  }

  /** What a command or a run of the task is to do. */
  ghost predicate Effect(c: Channel, cmd: Command, t: int, r: Outcome)
    requires Sane(c) && Begun(c, t)
  {
    match cmd
    case SetRange(minPulse, maxPulse, minAngle, maxAngle) => RangeSet(c, minPulse, maxPulse, minAngle, maxAngle, t, r)
    case SetTrim(trim) => TrimSet(c, trim, r)
    case SetReverse(reverse) => ReverseSet(c, reverse, r)
    case SetProfile(profile) => ProfileSet(c, profile, r)
    case SetAngle(angle) => AngleSet(c, angle, r)
    case SetPulse(pulse) => PulseSet(c, pulse, r)
    case MoveTo(angle, time) => MoveStarted(c, angle, time, t, r)
    case MoveAtSpeed(angle, speed) => exists target, time :: SpeedTaken(c, angle, speed, t, target, time, r)
    case Stop => Stopped(c, t, r)
    case Detach => Detached(c, r)
    case Run => Updated(c, t, r)
  }

  // ---------------------------------------------------------------- they do it

  lemma UpdatePutsHere(c: Channel, t: int)
    requires Sane(c) && Begun(c, t)
    ensures PutHere(c, t, Update(c, t)) && MoveLeft(c, t, Update(c, t).move)
  {
  }

  lemma MoveToStarts(c: Channel, angle: int16, time: uint16, t: int)
    requires Sane(c) && Begun(c, t)
    ensures MoveStarted(c, angle, time, t, Outcome(true, StartMove(c, angle, time, t)))
  {
    UpdatePutsHere(c, t);
  }

  /** Updating twice at one time is updating once. */
  lemma StartsOnceUpdated(c: Channel, angle: int16, time: uint16, t: int)
    requires Sane(c) && Begun(c, t) && c.pulse != 0
    ensures var target := c.range.ClampAngle(angle);
            MoveStarted(c, angle, time, t, Outcome(true, StartMove(Update(c, t), target, time, t)))
  {
    var here := Update(c, t);
    UpdatePutsHere(c, t);
    UpdatePutsHere(here, t);
    if here.move.Some? {
      assert Here(here, t) == Here(c, t) == here.angle;
    }
    assert c.range.ClampAngle(c.range.ClampAngle(angle)) == c.range.ClampAngle(angle);
  }

  lemma StartsDetached(c: Channel, angle: int16, t: int)
    requires Sane(c) && Begun(c, t) && c.pulse == 0
    ensures var target := c.range.ClampAngle(angle);
            forall time: uint16 :: MoveStarted(c, angle, time, t, Outcome(true, StartMove(c, target, time, t)))
  {
    assert c.range.ClampAngle(c.range.ClampAngle(angle)) == c.range.ClampAngle(angle);
  }

  lemma SpeedHasItsEffect(c: Channel, angle: int16, speed: uint16, t: int)
    requires Sane(c) && Begun(c, t)
    ensures Effect(c, MoveAtSpeed(angle, speed), t, MoveSteadily(c, angle, speed, t))
  {
    hide Sane;
    SaneIs(c);
    var r := MoveSteadily(c, angle, speed, t);
    var target := c.range.ClampAngle(angle);
    if speed == 0 {
      assert SpeedTaken(c, angle, speed, t, target, 0, r);
    } else {
      UpdatePutsHere(c, t);
      var distance := if c.pulse == 0 then 0 else Abs(target - Here(c, t));
      var time := TimeAtSpeed(distance, speed);
      if time <= 0xFFFF {
        if c.pulse == 0 {
          StartsDetached(c, angle, t);
        } else {
          StartsOnceUpdated(c, angle, time, t);
        }
      }
      assert SpeedTaken(c, angle, speed, t, target, time, r);
    }
  }

  lemma RangeHasItsEffect(c: Channel, minPulse: uint16, maxPulse: uint16, minAngle: int16, maxAngle: int16, t: int)
    requires Sane(c) && Begun(c, t) && Exact(SetRange(minPulse, maxPulse, minAngle, maxAngle))
    ensures RangeSet(c, minPulse, maxPulse, minAngle, maxAngle, t,
                     ChangeRange(c, minPulse, maxPulse, minAngle, maxAngle, t))
  {
    UpdatePutsHere(c, t);
  }

  /** Main result: every command and every run of the task has its effect, and no other. */
  lemma HasItsEffect(c: Channel, cmd: Command, t: int)
    requires Sane(c) && Begun(c, t) && Exact(cmd)
    ensures Effect(c, cmd, t, Apply(c, cmd, t))
  {
    match cmd
    case SetRange(minPulse, maxPulse, minAngle, maxAngle) =>
      RangeHasItsEffect(c, minPulse, maxPulse, minAngle, maxAngle, t);
    case MoveTo(angle, time) => MoveToStarts(c, angle, time, t);
    case MoveAtSpeed(angle, speed) => SpeedHasItsEffect(c, angle, speed, t);
    case Stop => UpdatePutsHere(c, t);
    case Run => UpdatePutsHere(c, t);
    case _ =>
  }

  // ---------------------------------------------------------------- whole runs

  /** So has every step of every run. */
  lemma EveryStepHasItsEffect(steps: seq<Step>, i: nat) returns (ok: bool)
    requires InTime(steps) && i < |steps|
    ensures Sane(After(steps[..i])) && Begun(After(steps[..i]), steps[i].at)
    ensures Effect(After(steps[..i]), steps[i].cmd, steps[i].at, Outcome(ok, After(steps[..i + 1])))
  {
    hide Effect, Sane, Apply;
    assert steps[..i + 1][..i] == steps[..i];
    HasItsEffect(After(steps[..i]), steps[i].cmd, steps[i].at);
    ok := Apply(After(steps[..i]), steps[i].cmd, steps[i].at).ok;
  }

  /** Commands that attach a channel. */
  predicate Attaches(cmd: Command) {
    cmd.SetAngle? || cmd.MoveTo? || (cmd.SetPulse? && cmd.pulse != 0) || (cmd.MoveAtSpeed? && cmd.speed != 0)
  }

  lemma StaysDetached(c: Channel, cmd: Command, t: int, r: Outcome)
    requires Sane(c) && Begun(c, t) && Effect(c, cmd, t, r) && c.pulse == 0 && c.move == None && !Attaches(cmd)
    ensures r.c.pulse == 0 && r.c.move == None && r.c.outputs == c.outputs
  {
  }

  /** After pifServo_Detach there is no pulse and no move, and act_control is not called, until a command attaches the
      channel again. */
  lemma {:induction false} SilentWhileDetached(steps: seq<Step>, i: nat, j: nat)
    requires InTime(steps) && i < j <= |steps| && steps[i].cmd == Detach
    requires forall k :: i < k < j ==> !Attaches(steps[k].cmd)
    ensures var c, d := After(steps[..i]), After(steps[..j]);
            && d.pulse == 0 && d.move == None
            && d.outputs == if c.pulse == 0 then c.outputs else c.outputs + [0]
    decreases j
  {
    hide Sane, After;
    var ok := EveryStepHasItsEffect(steps, j - 1);
    if i < j - 1 {
      SilentWhileDetached(steps, i, j - 1);
      StaysDetached(After(steps[..j - 1]), steps[j - 1].cmd, steps[j - 1].at, Outcome(ok, After(steps[..j])));
    }
  }
}
