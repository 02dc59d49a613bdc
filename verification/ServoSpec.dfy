/** What one channel of source/actuator/pif_servo.c does, on a clock that does not wrap: a move is a function of the
    time since it started, and every command is a step between states that keep one invariant. */
module ServoSpec {
  import opened Options
  import opened ServoMath
  import opened Words

  /** A move under way: from start to target, started at a time in us, over time ms. */
  datatype Move = Move(start: int16, target: int16, at: int, time: uint16, profile: Profile)

  /** pulse is the one given last to act_control, 0 while detached; outputs are all that were given to it. */
  datatype Channel = Channel(range: Range, profile: Profile, pulse: uint16, angle: int16, move: Option<Move>,
                             outputs: seq<uint16>)

  datatype Outcome = Outcome(ok: bool, c: Channel)

  // ---------------------------------------------------------------- a move

  function Elapsed(m: Move, t: int): nat
    requires m.at <= t
  {
    (t - m.at) / 1000
  }

  function AngleAt(m: Move, t: int): int16
    requires m.at <= t
  {
    Position(m.start, m.target, Progress(Elapsed(m, t), m.time, m.profile))
  }

  predicate Over(m: Move, t: int)
    requires m.at <= t
  {
    Elapsed(m, t) >= m.time
  }

  lemma ElapsedMonotone(m: Move, t: int, u: int)
    requires m.at <= t <= u
    ensures Elapsed(m, t) <= Elapsed(m, u)
  {
  }

  /** A move never turns back, stays between its start and its target, and is at the target exactly when its time has
      passed, or if that is where it started. */
  lemma MoveIsMonotone(m: Move, t: int, u: int)
    requires m.at <= t <= u
    ensures if m.start <= m.target then m.start <= AngleAt(m, t) <= AngleAt(m, u) <= m.target
            else m.target <= AngleAt(m, u) <= AngleAt(m, t) <= m.start
    ensures AngleAt(m, t) == m.target <==> Over(m, t) || m.start == m.target
  {
    ElapsedMonotone(m, t, u);
    ProgressMonotone(Elapsed(m, t), Elapsed(m, u), m.time, m.profile);
    CoveredMonotone(Abs(m.target - m.start), Progress(Elapsed(m, t), m.time, m.profile),
                    Progress(Elapsed(m, u), m.time, m.profile));
    CoveredBetween(Abs(m.target - m.start), Progress(Elapsed(m, t), m.time, m.profile));
  }

  lemma AtItsStart(m: Move)
    requires m.time > 0
    ensures AngleAt(m, m.at) == m.start
  {
    QuotientIs(0, m.time, 0);
    assert Progress(0, m.time, m.profile) == 0;
    CoveredBetween(Abs(m.target - m.start), 0);
  }

  // ---------------------------------------------------------------- the invariant

  predicate NoRepeats(outputs: seq<uint16>) {
    forall i :: 0 <= i < |outputs| - 1 ==> outputs[i] != outputs[i + 1]
  }

  /** A servo is detached until the first output, so that one is no 0. */
  predicate Shown(pulse: uint16, outputs: seq<uint16>) {
    && NoRepeats(outputs)
    && if outputs == [] then pulse == 0 else outputs[0] != 0 && pulse == outputs[|outputs| - 1]
  }

  /** The pulse is that of the angle, or the angle that of the pulse. */
  predicate Agree(r: Range, pulse: uint16, angle: int16)
    requires r.Valid() && r.Has(angle)
  {
    pulse == r.AngleToPulse(angle) || angle == r.PulseToAngle(pulse)
  }

  predicate Sane(c: Channel) {
    && c.range.Valid() && c.range.Has(c.angle) && Shown(c.pulse, c.outputs)
    && (c.pulse != 0 ==> Agree(c.range, c.pulse, c.angle))
    && (c.move.Some? ==> c.pulse != 0 && c.range.Has(c.move.value.start) && c.range.Has(c.move.value.target))
  }

  lemma SaneIs(c: Channel)
    requires Sane(c)
    ensures c.range.Valid() && c.range.Has(c.angle) && Shown(c.pulse, c.outputs)
    ensures c.move.Some? ==> c.pulse != 0 && c.range.Has(c.move.value.start) && c.range.Has(c.move.value.target)
  {
  }

  /** The move under way did not start after t. */
  predicate Begun(c: Channel, t: int) {
    c.move.Some? ==> c.move.value.at <= t
  }

  // ---------------------------------------------------------------- steps

  /** What act_control has been given after _output. */
  function Outputs(outputs: seq<uint16>, last: uint16, pulse: uint16): seq<uint16> {
    if pulse == last then outputs else outputs + [pulse]
  }

  function Output(c: Channel, pulse: uint16): (r: Channel)
    requires Shown(c.pulse, c.outputs)
    ensures Shown(r.pulse, r.outputs) && r.pulse == pulse
  {
    c.(pulse := pulse, outputs := Outputs(c.outputs, c.pulse, pulse))
  }

  /** _setAngle */
  function PutAngle(c: Channel, angle: int16): (r: Channel)
    requires c.range.Valid() && c.range.Has(angle) && Shown(c.pulse, c.outputs)
    ensures Shown(r.pulse, r.outputs) && r.pulse == c.range.AngleToPulse(angle) != 0
  {
    Output(c.(angle := angle), c.range.AngleToPulse(angle))
  }

  /** _update: a move that is over ends at its target. */
  function Update(c: Channel, t: int): (r: Channel)
    requires Sane(c) && Begun(c, t)
    ensures Sane(r) && r.range == c.range
    ensures c.move.Some? ==> r.pulse == c.range.AngleToPulse(r.angle) && r.angle == AngleAt(c.move.value, t)
    ensures r.move == if c.move.Some? && Over(c.move.value, t) then None else c.move
  {
    if c.move == None then c
    else
      var m := c.move.value;
      PutAngle(c, AngleAt(m, t)).(move := if Over(m, t) then None else c.move)
  }

  /** _stopMove: where the move has got to. */
  function StopMove(c: Channel, t: int): (r: Channel)
    requires Sane(c) && Begun(c, t)
    ensures Sane(r) && r.move == None
  {
    Update(c, t).(move := None)
  }

  /** _startMove: from where the channel is, or at once if it is detached. */
  function StartMove(c: Channel, angle: int16, time: uint16, t: int): (r: Channel)
    requires Sane(c) && Begun(c, t)
    ensures Sane(r) && Begun(r, t) && r.range == c.range && r.profile == c.profile
    ensures r.move.Some? && r.move.value.target == c.range.ClampAngle(angle) && r.move.value.start == r.angle
    ensures r.move.value.at == t && r.move.value.profile == c.profile
    ensures r.angle == (if c.pulse == 0 then c.range.ClampAngle(angle) else Update(c, t).angle)
    ensures r.move.value.time == if c.pulse == 0 then 0 else time
  {
    var target := c.range.ClampAngle(angle);
    var here := if c.pulse == 0 then PutAngle(c, target) else Update(c, t);
    here.(move := Some(Move(here.angle, target, t, if c.pulse == 0 then 0 else time, c.profile)))
  }

  /** The pulse of an attached channel follows a change of its range. */
  function Refit(c: Channel, range: Range): (r: Channel)
    requires Sane(c) && range.Valid()
    requires c.move.Some? ==> range.Has(c.move.value.start) && range.Has(c.move.value.target)
    ensures Sane(r) && r.range == range && r.angle == range.ClampAngle(c.angle) && r.move == c.move
  {
    var angle := range.ClampAngle(c.angle);
    if c.pulse == 0 then c.(range := range, angle := angle) else PutAngle(c.(range := range), angle)
  }

  datatype Command =
    | SetRange(minPulse: uint16, maxPulse: uint16, minAngle: int16, maxAngle: int16)
    | SetTrim(trim: int16)
    | SetReverse(reverse: bool)
    | SetProfile(profile: Profile)
    | SetAngle(angle: int16)
    | SetPulse(pulse: uint16)
    | MoveTo(angle: int16, time: uint16)
    | MoveAtSpeed(angle: int16, speed: uint16)
    | Stop
    | Detach
    | Run      // the task comes to the channel

  /** A range that pifServo_SetRange does not refuse by itself, and whose spans are too large for the 32-bit product, is
      the caller's to avoid: a conversion then overflows (ServoMath.FitIsExact). */
  predicate Exact(cmd: Command) {
    cmd.SetRange? && cmd.minPulse < cmd.maxPulse && -0x8000 < cmd.minAngle < cmd.maxAngle ==>
      && Fit(cmd.maxAngle - cmd.minAngle, cmd.maxPulse - cmd.minPulse)
      && Fit(cmd.maxPulse - cmd.minPulse, cmd.maxAngle - cmd.minAngle)
  }

  /** pifServo_MoveAtSpeed. A move that would take too long is refused, but the channel has been updated by then. */
  function MoveSteadily(c: Channel, angle: int16, speed: uint16, t: int): (r: Outcome)
    requires Sane(c) && Begun(c, t)
    ensures Sane(r.c) && Begun(r.c, t)
  {
    if speed == 0 then Outcome(false, c)
    else
      var target := c.range.ClampAngle(angle);
      var here := if c.pulse == 0 then c else Update(c, t);
      var time := TimeAtSpeed(if c.pulse == 0 then 0 else Abs(target - here.angle), speed);
      if time > 0xFFFF then Outcome(false, here) else Outcome(true, StartMove(here, target, time, t))
  }

  /** pifServo_SetRange: the trim must leave every pulse positive, and KEEP is no angle. */
  function ChangeRange(c: Channel, minPulse: uint16, maxPulse: uint16, minAngle: int16, maxAngle: int16, t: int):
      (r: Outcome)
    requires Sane(c) && Begun(c, t) && Exact(SetRange(minPulse, maxPulse, minAngle, maxAngle))
    ensures Sane(r.c) && (if r.ok then r.c.move == None else r.c == c)
  {
    if minPulse <= Abs(c.range.trim) || minPulse >= maxPulse || minAngle == -0x8000 || minAngle >= maxAngle then
      Outcome(false, c)
    else
      Outcome(true, Refit(StopMove(c, t), Range(minPulse, maxPulse, minAngle, maxAngle, c.range.trim,
                                                c.range.reverse)))
  }

  function Apply(c: Channel, cmd: Command, t: int): (r: Outcome)
    requires Sane(c) && Begun(c, t) && Exact(cmd)
    ensures Sane(r.c) && Begun(r.c, t)
  {
    match cmd
    case SetRange(minPulse, maxPulse, minAngle, maxAngle) =>
      ChangeRange(c, minPulse, maxPulse, minAngle, maxAngle, t)
    case SetTrim(trim) =>
      if Abs(trim) >= c.range.minPulse then Outcome(false, c)
      else Outcome(true, Refit(c, c.range.(trim := trim)))
    case SetReverse(reverse) => Outcome(true, Refit(c, c.range.(reverse := reverse)))
    case SetProfile(profile) => Outcome(true, c.(profile := profile))
    case SetAngle(angle) => Outcome(true, PutAngle(c.(move := None), c.range.ClampAngle(angle)))
    case SetPulse(pulse) =>
      if pulse == 0 then Outcome(false, c)
      else Outcome(true, Output(c.(move := None, angle := c.range.PulseToAngle(pulse)), pulse))
    case MoveTo(angle, time) => Outcome(true, StartMove(c, angle, time, t))
    case MoveAtSpeed(angle, speed) => MoveSteadily(c, angle, speed, t)
    case Stop => Outcome(true, StopMove(c, t))
    case Detach => Outcome(true, Output(c.(move := None), 0))
    case Run => Outcome(true, Update(c, t))
  }

  // ---------------------------------------------------------------- whole runs

  datatype Step = Step(cmd: Command, at: int)

  /** A channel after pifServo_Init, with the default range. */
  function Start(): (c: Channel)
    ensures Sane(c)
  {
    var r := Range(1000, 2000, 0, 1800, 0, false);
    assert r.Valid() && r.Has(0);
    Channel(r, Linear, 0, 0, None, [])
  }

  ghost predicate InTime(steps: seq<Step>) {
    && (forall i, j :: 0 <= i < j < |steps| ==> steps[i].at <= steps[j].at)
    && (forall i :: 0 <= i < |steps| ==> Exact(steps[i].cmd))
  }

  /** The channel after commands and runs of the task at the times given. */
  function After(steps: seq<Step>): (c: Channel)
    requires InTime(steps)
    ensures Sane(c) && (steps != [] ==> Begun(c, steps[|steps| - 1].at)) && (steps == [] ==> c.move == None)
  {
    if steps == [] then Start()
    else
      var last := steps[|steps| - 1];
      Apply(After(steps[..|steps| - 1]), last.cmd, last.at).c
  }

  /** Main result: whatever is done to a channel, and whenever, act_control is never given the same pulse twice in a
      row, the trim leaves every pulse positive, and what moves is attached, within its range, and stays there. */
  lemma EveryRunSane(steps: seq<Step>, u: int)
    requires InTime(steps) && (steps != [] ==> steps[|steps| - 1].at <= u)
    ensures var c := After(steps);
            && NoRepeats(c.outputs) && c.pulse == (if c.outputs == [] then 0 else c.outputs[|c.outputs| - 1])
            && Abs(c.range.trim) < c.range.minPulse
            && (c.move.Some? ==> c.pulse != 0 && c.range.Has(AngleAt(c.move.value, u)))
  {
    var c := After(steps);
    if c.move.Some? {
      MoveIsMonotone(c.move.value, u, u);
    }
  }

  /** A late run of the task does not slow a move down: it leaves the channel where it would be had the task come in
      between as well. */
  lemma LateRunsCatchUp(c: Channel, t: int, u: int)
    requires Sane(c) && Begun(c, t) && t <= u
    ensures var often, once := Update(Update(c, t), u), Update(c, u);
            often.(outputs := once.outputs) == once
  {
    if c.move.Some? {
      MoveIsMonotone(c.move.value, t, u);
      MoveIsMonotone(c.move.value, u, u);
    }
  }

  /** How far a move to an angle goes, for pifServo_MoveAtSpeed. */
  function Far(c: Channel, angle: int16, t: int): (far: nat)
    requires Sane(c) && Begun(c, t)
    ensures far < 0x1_0000
  {
    if c.pulse == 0 then 0 else Abs(c.range.ClampAngle(angle) - Update(c, t).angle)
  }

  /** A move at a speed is accepted exactly when the speed is not 0 and the distance takes no more than 65535 ms. */
  lemma AcceptedSpeeds(c: Channel, angle: int16, speed: uint16, t: int)
    requires Sane(c) && Begun(c, t)
    ensures Apply(c, MoveAtSpeed(angle, speed), t).ok <==> speed > 0 && Far(c, angle, t) * 100 <= 0xFFFF * speed
  {
    if speed > 0 {
      var time := TimeAtSpeed(Far(c, angle, t), speed);
      if time <= 0xFFFF {
        Times(time, 0xFFFF, speed);
      } else {
        assert 0xFFFF * speed < Far(c, angle, t) * 100;
      }
    }
  }

  /** As long as it lasts, a linear move at a speed has never covered more than the speed gives. */
  lemma SpeedIsKept(c: Channel, angle: int16, speed: uint16, t: int, u: int)
    requires Sane(c) && Begun(c, t) && t <= u && c.profile == Linear
    requires Apply(c, MoveAtSpeed(angle, speed), t).ok
    ensures var m := Apply(c, MoveAtSpeed(angle, speed), t).c.move.value;
            && m.target == c.range.ClampAngle(angle) && Abs(m.target - m.start) == Far(c, angle, t)
            && Abs(AngleAt(m, u) - m.start) * 100 <= Elapsed(m, u) * speed
  {
    LateRunsCatchUp(c, t, t);
    var m := Apply(c, MoveAtSpeed(angle, speed), t).c.move.value;
    if c.pulse != 0 {
      NeverTooFast(Far(c, angle, t), speed, m.time, Elapsed(m, u));
    }
  }

  /** A move replaced halfway goes on from where it has got to: the servo does not jump. */
  lemma NoJump(c: Channel, angle: int16, time: uint16, t: int)
    requires Sane(c) && Begun(c, t) && c.move.Some? && time > 0
    ensures var r := Apply(c, MoveTo(angle, time), t).c;
            && AngleAt(r.move.value, t) == AngleAt(c.move.value, t) == r.angle
            && r.pulse == c.range.AngleToPulse(r.angle) == Update(c, t).pulse
  {
    AtItsStart(StartMove(c, angle, time, t).move.value);
  }

  /** Moves started together with the same time are over together, however far they go. */
  lemma ArriveTogether(a: Channel, b: Channel, angleA: int16, angleB: int16, time: uint16, t: int, u: int)
    requires Sane(a) && Sane(b) && Begun(a, t) && Begun(b, t) && a.pulse != 0 && b.pulse != 0 && t <= u
    ensures var x, y := Update(StartMove(a, angleA, time, t), u), Update(StartMove(b, angleB, time, t), u);
            && (x.move == None <==> y.move == None) && (x.move == None <==> u - t >= time * 1000)
            && (x.move == None ==> x.angle == a.range.ClampAngle(angleA) && y.angle == b.range.ClampAngle(angleB))
  {
    var m, n := StartMove(a, angleA, time, t).move.value, StartMove(b, angleB, time, t).move.value;
    MoveIsMonotone(m, u, u);
    MoveIsMonotone(n, u, u);
  }
}
