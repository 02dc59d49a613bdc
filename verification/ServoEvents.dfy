/** How every move of a channel of source/actuator/pif_servo.c ends, and which moves are over without evt_arrive having
    been called. */
module ServoEvents {
  import opened Options
  import opened Words
  import opened ServoMath
  import opened ServoSpec

  /** Reported: by the task, which calls evt_arrive. Missed: by a command, though its time had passed by then. Cut: by
      a command, before that. */
  datatype Ending = Reported | Missed | Cut

  /** Whether a step starts a move. */
  predicate Starts(c: Channel, cmd: Command, t: int)
    requires Sane(c) && Begun(c, t) && Exact(cmd)
  {
    (cmd.MoveTo? || cmd.MoveAtSpeed?) && Apply(c, cmd, t).ok
  }

  /** How a command or a run of the task ends the move under way: it does if it starts another one or leaves none, and
      of all steps only a run of the task calls evt_arrive. */
  function EndingOf(c: Channel, cmd: Command, t: int): Option<Ending>
    requires Sane(c) && Begun(c, t) && Exact(cmd)
  {
    if c.move == None || !(Starts(c, cmd, t) || Apply(c, cmd, t).c.move == None) then None
    else Some(if cmd == Run then Reported else if Over(c.move.value, t) then Missed else Cut)
  }

  /** A step starts a move, or leaves the one under way as it is, or ends it; and evt_arrive is called at the target
      only, when the time of the move has passed. */
  lemma EndingIsExact(c: Channel, cmd: Command, t: int)
    requires Sane(c) && Begun(c, t) && Exact(cmd)
    ensures var e, next := EndingOf(c, cmd, t), Apply(c, cmd, t).c;
            && (Starts(c, cmd, t) ==> next.move.Some? && (c.move.Some? ==> e.Some?))
            && (!Starts(c, cmd, t) ==> next.move == if e == None then c.move else None)
            && (e.Some? ==> c.move.Some?)
            && (e == Some(Reported) <==> c.move.Some? && cmd == Run && Over(c.move.value, t))
            && (e == Some(Reported) ==>
                  && next.move == None && next.angle == c.move.value.target
                  && next.pulse == c.range.AngleToPulse(next.angle))
  {
    if c.move.Some? {
      MoveIsMonotone(c.move.value, t, t);
    }
  }

  // ---------------------------------------------------------------- moves that are over and not reported

  /** A range that pifServo_SetRange refuses. */
  predicate Refuses(r: Range, cmd: Command)
    requires cmd.SetRange?
  {
    cmd.minPulse <= Abs(r.trim) || cmd.minPulse >= cmd.maxPulse || cmd.minAngle == -0x8000
    || cmd.minAngle >= cmd.maxAngle
  }

  /** Commands that leave a move alone, whatever its state: those that do not concern it, and those refused before
      anything is done. */
  predicate Ignores(c: Channel, cmd: Command) {
    || cmd.SetTrim? || cmd.SetReverse? || cmd.SetProfile?
    || (cmd.SetPulse? && cmd.pulse == 0)
    || (cmd.MoveAtSpeed? && cmd.speed == 0)
    || (cmd.SetRange? && Refuses(c.range, cmd))
  }

  /** Commands of which include/actuator/pif_servo.h says that they stop a move without evt_arrive. */
  predicate StopsByContract(cmd: Command) {
    cmd.SetAngle? || cmd.SetPulse? || cmd.Stop? || cmd.Detach?
  }

  /** Main result about the promise that evt_arrive is called when a move has reached its target: once the time of a
      move has passed, the next step that concerns it ends it, and it is reported if that is a run of the task and in no
      other case. */
  lemma MissedExactly(c: Channel, cmd: Command, t: int)
    requires Sane(c) && Begun(c, t) && Exact(cmd) && c.move.Some? && Over(c.move.value, t)
    ensures EndingOf(c, cmd, t) == Some(Missed) <==> cmd != Run && !Ignores(c, cmd)
    ensures EndingOf(c, cmd, t) == Some(Reported) <==> cmd == Run
    ensures EndingOf(c, cmd, t) == None <==> Ignores(c, cmd)
  {
    MoveIsMonotone(c.move.value, t, t);
  }

  /** Of the commands that end a move which is over, the header excepts four. The others are these: all moves but one at
      no speed, accepted or not, and a new range. */
  lemma MissedAgainstContract(c: Channel, cmd: Command, t: int)
    requires Sane(c) && Begun(c, t) && Exact(cmd) && c.move.Some? && Over(c.move.value, t)
    ensures EndingOf(c, cmd, t) == Some(Missed) && !StopsByContract(cmd)
            <==> cmd.MoveTo? || (cmd.MoveAtSpeed? && cmd.speed > 0) || (cmd.SetRange? && !Refuses(c.range, cmd))
  {
    MissedExactly(c, cmd, t);
  }

  /** These and Stop take the channel to the target before they end the move: a move that follows starts there, a new
      range holds that angle within it, and the others leave the channel there. */
  lemma MissedAtTarget(c: Channel, cmd: Command, t: int)
    requires Sane(c) && Begun(c, t) && Exact(cmd) && c.move.Some? && Over(c.move.value, t)
    requires EndingOf(c, cmd, t) == Some(Missed) && !cmd.SetAngle? && !cmd.SetPulse? && !cmd.Detach?
    ensures var next, target := Apply(c, cmd, t).c, c.move.value.target;
            && (Starts(c, cmd, t) ==> next.move.value.start == target)
            && next.angle == (if cmd.SetRange? then next.range.ClampAngle(target) else target)
            && next.pulse == next.range.AngleToPulse(next.angle)
  {
    MoveIsMonotone(c.move.value, t, t);
  }

  /** A command that is refused ends a move exactly if it is a move at a speed, not 0, that comes when the time of the
      other has passed, and whose way from there would take more than 65535 ms. */
  lemma RefusedEnds(c: Channel, cmd: Command, t: int)
    requires Sane(c) && Begun(c, t) && Exact(cmd)
    ensures EndingOf(c, cmd, t).Some? && !Apply(c, cmd, t).ok <==>
              && c.move.Some? && Over(c.move.value, t) && cmd.MoveAtSpeed? && cmd.speed > 0
              && Abs(c.range.ClampAngle(cmd.angle) - c.move.value.target) * 100 > 0xFFFF * cmd.speed
  {
    if cmd.MoveAtSpeed? && c.move.Some? {
      AcceptedSpeeds(c, cmd.angle, cmd.speed, t);
      MoveIsMonotone(c.move.value, t, t);
    }
  }

  // ---------------------------------------------------------------- whole runs

  /** How many steps start a move, and how many end one in that way. */
  function Started(steps: seq<Step>): nat
    requires InTime(steps)
  {
    if steps == [] then 0
    else
      var last := steps[|steps| - 1];
      Started(steps[..|steps| - 1]) + (if Starts(After(steps[..|steps| - 1]), last.cmd, last.at) then 1 else 0)
  }

  function Ended(steps: seq<Step>, e: Ending): nat
    requires InTime(steps)
  {
    if steps == [] then 0
    else
      var last := steps[|steps| - 1];
      Ended(steps[..|steps| - 1], e)
      + (if EndingOf(After(steps[..|steps| - 1]), last.cmd, last.at) == Some(e) then 1 else 0)
  }

  /** Every move ends once, if it has ended: reported, missed or cut. */
  lemma {:induction false} EveryMoveEndsOnce(steps: seq<Step>)
    requires InTime(steps)
    ensures Started(steps) == Ended(steps, Reported) + Ended(steps, Missed) + Ended(steps, Cut)
                              + (if After(steps).move.Some? then 1 else 0)
  {
    if steps != [] {
      var init, last := steps[..|steps| - 1], steps[|steps| - 1];
      EveryMoveEndsOnce(init);
      EndingIsExact(After(init), last.cmd, last.at);
    }
  }

  lemma AfterNext(steps: seq<Step>, k: nat, next: nat)
    requires InTime(steps) && k < |steps| && next == k + 1
    ensures After(steps[..next]) == Apply(After(steps[..k]), steps[k].cmd, steps[k].at).c
  {
    assert steps[..next][..k] == steps[..k];
  }

  /** Nothing ends the move under way after the first start steps, up to step i. */
  ghost predicate Undisturbed(steps: seq<Step>, start: nat, i: nat)
    requires InTime(steps) && i <= |steps|
  {
    forall k :: start <= k < i ==> EndingOf(After(steps[..k]), steps[k].cmd, steps[k].at) == None
  }

  lemma {:induction false} StillMoving(steps: seq<Step>, start: nat, i: nat)
    requires InTime(steps) && start <= i <= |steps| && After(steps[..start]).move.Some?
    requires Undisturbed(steps, start, i)
    ensures After(steps[..i]).move == After(steps[..start]).move
    decreases i - start
  {
    hide Apply, After, Sane, Starts;
    if start < i {
      StillMoving(steps, start, i - 1);
      EndingIsExact(After(steps[..i - 1]), steps[i - 1].cmd, steps[i - 1].at);
      AfterNext(steps, i - 1, i);
    }
  }

  lemma IsOver(m: Move, t: int)
    requires t - m.at >= m.time * 1000
    ensures m.at <= t && Over(m, t)
  {
  }

  /** What a step does to a move that is over. */
  ghost predicate Decided(c: Channel, step: Step, next: Channel)
    requires Sane(c) && Begun(c, step.at) && Exact(step.cmd)
  {
    var e := EndingOf(c, step.cmd, step.at);
    && (e == None <==> Ignores(c, step.cmd))
    && (e == Some(Reported) <==> step.cmd == Run)
    && (e == Some(Reported) ==> c.move.Some? && next.move == None && next.angle == c.move.value.target)
  }

  lemma StepDecides(c: Channel, step: Step)
    requires Sane(c) && Begun(c, step.at) && Exact(step.cmd) && c.move.Some?
    requires step.at - c.move.value.at >= c.move.value.time * 1000
    ensures Decided(c, step, Apply(c, step.cmd, step.at).c)
  {
    hide Apply, Sane, Starts, EndingOf, Ignores;
    IsOver(c.move.value, step.at);
    EndingIsExact(c, step.cmd, step.at);
    MissedExactly(c, step.cmd, step.at);
  }

  /** A move that nothing has ended when its time has passed stays under way until a step concerns it. Then it is
      reported if and only if that step is a run of the task, with the channel at its target. */
  lemma FirstStepDecides(steps: seq<Step>, start: nat, i: nat)
    requires InTime(steps) && start <= i < |steps| && After(steps[..start]).move.Some?
    requires Undisturbed(steps, start, i)
    requires steps[i].at - After(steps[..start]).move.value.at >= After(steps[..start]).move.value.time * 1000
    ensures After(steps[..i]).move == After(steps[..start]).move
    ensures Decided(After(steps[..i]), steps[i], After(steps[..i + 1]))
  {
    hide After, Apply, Sane, Starts, EndingOf, Ignores, Decided;
    StillMoving(steps, start, i);
    StepDecides(After(steps[..i]), steps[i]);
    AfterNext(steps, i, i + 1);
  }

  // ---------------------------------------------------------------- moves that are missed

  /** A channel at 180 degrees, and then on its way to 0 for a second. */
  lemma TurnedThere()
    ensures var c := Apply(Start(), SetAngle(1800), 0).c;
            c.angle == 1800 && c.pulse != 0 && c.move == None && c.range == Start().range && c.profile == Linear
  {
  }

  lemma OnItsWay(c: Channel)
    requires Sane(c) && c.angle == 1800 && c.pulse != 0 && c.move == None && c.range == Start().range
    requires c.profile == Linear
    ensures Apply(c, MoveTo(0, 1000), 0).c.move == Some(Move(1800, 0, 0, 1000, Linear))
    ensures Apply(c, MoveTo(0, 1000), 0).c.range == c.range
    ensures Starts(c, MoveTo(0, 1000), 0) && EndingOf(c, MoveTo(0, 1000), 0) == None
  {
  }

  /** At two seconds the move is over; a move back at one degree per second is refused and another one accepted. */
  lemma MissedThere(c: Channel)
    requires Sane(c) && c.move == Some(Move(1800, 0, 0, 1000, Linear)) && c.range == Start().range
    ensures EndingOf(c, MoveAtSpeed(1800, 1), 2_000_000) == Some(Missed)
    ensures !Starts(c, MoveAtSpeed(1800, 1), 2_000_000)
    ensures var d := Apply(c, MoveAtSpeed(1800, 1), 2_000_000).c; d.move == None && d.angle == 0
    ensures EndingOf(c, MoveTo(900, 1000), 2_000_000) == Some(Missed) && Starts(c, MoveTo(900, 1000), 2_000_000)
    ensures var d := Apply(c, MoveTo(900, 1000), 2_000_000).c;
            d.move == Some(Move(0, 900, 2_000_000, 1000, c.profile)) && d.angle == 0
  {
    hide Apply, EndingOf;
    MissedExactly(c, MoveAtSpeed(1800, 1), 2_000_000);
    MissedAtTarget(c, MoveAtSpeed(1800, 1), 2_000_000);
    RefusedEnds(c, MoveAtSpeed(1800, 1), 2_000_000);
    EndingIsExact(c, MoveAtSpeed(1800, 1), 2_000_000);
    MissedExactly(c, MoveTo(900, 1000), 2_000_000);
    MissedAtTarget(c, MoveTo(900, 1000), 2_000_000);
    MovesOn(c, 900, 1000, 2_000_000);
  }

  lemma MovesOn(c: Channel, angle: int16, time: uint16, t: int)
    requires Sane(c) && Begun(c, t) && c.move.Some?
    ensures Starts(c, MoveTo(angle, time), t)
    ensures var d := Apply(c, MoveTo(angle, time), t).c;
            d.move == Some(Move(d.angle, c.range.ClampAngle(angle), t, time, c.profile))
  {
  }

  /** A step may come after others. */
  ghost predicate Follows(steps: seq<Step>, last: Step) {
    InTime(steps) && Exact(last.cmd) && (steps != [] ==> steps[|steps| - 1].at <= last.at)
  }

  lemma CountNext(steps: seq<Step>, last: Step, all: seq<Step>)
    requires Follows(steps, last) && all == steps + [last]
    ensures InTime(all) && After(all) == Apply(After(steps), last.cmd, last.at).c
    ensures Started(all) == Started(steps) + (if Starts(After(steps), last.cmd, last.at) then 1 else 0)
    ensures forall e :: Ended(all, e) == Ended(steps, e)
              + (if EndingOf(After(steps), last.cmd, last.at) == Some(e) then 1 else 0)
  {
    hide Apply, Starts, EndingOf;
    assert all[..|all| - 1] == steps;
  }

  /** The servo goes from 180 to 0 degrees in a second; the task has not come since that was over. */
  lemma MoveIsOver() returns (steps: seq<Step>)
    ensures steps == [Step(SetAngle(1800), 0), Step(MoveTo(0, 1000), 0)]
    ensures InTime(steps) && Started(steps) == 1 && forall e :: Ended(steps, e) == 0
    ensures After(steps).move == Some(Move(1800, 0, 0, 1000, Linear)) && After(steps).range == Start().range
  {
    hide Apply, EndingOf, Starts, Started, Ended, After, Sane;
    var one := [Step(SetAngle(1800), 0)];
    NothingCounted();
    TurnedThere();
    assert one == [] + [Step(SetAngle(1800), 0)];
    CountNext([], Step(SetAngle(1800), 0), one);
    OnItsWay(After(one));
    steps := one + [Step(MoveTo(0, 1000), 0)];
    CountNext(one, Step(MoveTo(0, 1000), 0), steps);
  }

  /** When two seconds have passed, a move back at one degree per second is refused, as it would take three minutes: the
      servo is at 0, nothing moves, and nothing has been reported. */
  lemma RefusedMoveMisses() returns (steps: seq<Step>)
    ensures steps == [Step(SetAngle(1800), 0), Step(MoveTo(0, 1000), 0), Step(MoveAtSpeed(1800, 1), 2_000_000)]
    ensures InTime(steps) && Started(steps) == 1 && Ended(steps, Missed) == 1 && Ended(steps, Reported) == 0
    ensures After(steps).move == None && After(steps).angle == 0
  {
    hide Apply, EndingOf, Starts, Started, Ended, After, Sane;
    var two := MoveIsOver();
    steps := two + [Step(MoveAtSpeed(1800, 1), 2_000_000)];
    MissedThere(After(two));
    CountNext(two, Step(MoveAtSpeed(1800, 1), 2_000_000), steps);
  }

  /** Or a move to 90 degrees is accepted, from 0: two moves have started, the first is over, and nothing has been
      reported. */
  lemma NextMoveMisses() returns (steps: seq<Step>)
    ensures steps == [Step(SetAngle(1800), 0), Step(MoveTo(0, 1000), 0), Step(MoveTo(900, 1000), 2_000_000)]
    ensures InTime(steps) && Started(steps) == 2 && Ended(steps, Missed) == 1 && Ended(steps, Reported) == 0
    ensures After(steps).move == Some(Move(0, 900, 2_000_000, 1000, After(steps).profile)) && After(steps).angle == 0
  {
    hide Apply, EndingOf, Starts, Started, Ended, After, Sane;
    var two := MoveIsOver();
    steps := two + [Step(MoveTo(900, 1000), 2_000_000)];
    MissedThere(After(two));
    CountNext(two, Step(MoveTo(900, 1000), 2_000_000), steps);
    ProfileStays(After(two), MoveTo(900, 1000), 2_000_000);
  }

  lemma ProfileStays(c: Channel, cmd: Command, t: int)
    requires Sane(c) && Begun(c, t) && cmd.MoveTo?
    ensures Apply(c, cmd, t).c.profile == c.profile
  {
  }

  lemma NothingCounted()
    ensures InTime([]) && After([]) == Start() && Started([]) == 0
    ensures forall e :: Ended([], e) == 0
    ensures EndingOf(Start(), SetAngle(1800), 0) == None && !Starts(Start(), SetAngle(1800), 0)
  {
  }
}
