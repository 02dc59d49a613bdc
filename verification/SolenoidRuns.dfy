/** What every run of a solenoid channel keeps: how the hardware is driven, and the order and spread of the commands
    that wait. */
module SolenoidRuns {
  import opened Options
  import opened SolenoidSpec

  /** Whether the channel is ON after these acts. */
  function StateOf(acts: seq<Act>): bool {
    if acts == [] then false else
    match acts[|acts| - 1]
    case On(_, _, _) => true
    case Off => false
    case _ => StateOf(acts[..|acts| - 1])
  }

  /** The direction of the last ON since the direction was last reset. */
  function LastDir(acts: seq<Act>): Dir {
    if acts == [] then Invalid else
    match acts[|acts| - 1]
    case On(d, _, _) => d
    case Forget => Invalid
    case _ => LastDir(acts[..|acts| - 1])
  }

  /** The ON that the channel is still in after these acts. */
  function LitBy(acts: seq<Act>): (on: Option<Act>)
    ensures on.Some? ==> on.value.On?
  {
    if acts == [] then None else
    match acts[|acts| - 1]
    case On(_, _, _) => Some(acts[|acts| - 1])
    case Off => None
    case _ => LitBy(acts[..|acts| - 1])
  }

  /** When the pulse of an ON ends, if it does by itself. */
  function EndOf(on: Option<Act>): Option<int>
    requires on.Some? ==> on.value.On?
  {
    if on == None || on.value.time == 0 then None else Some(on.value.at + on.value.time * 1000)
  }

  /** Whether an act may follow others: OFF only on a channel that is ON, the end of a pulse only with it OFF, and
      with two coils ON only in a valid direction that is not the last one. */
  predicate Follows(kind: Kind, acts: seq<Act>, next: Act) {
    match next
    case On(d, _, _) => kind == TwoPoint ==> d != Invalid && d != LastDir(acts)
    case Off => StateOf(acts)
    case Ended => !StateOf(acts)
    case Forget => true
  }

  ghost predicate WellDriven(kind: Kind, acts: seq<Act>) {
    forall i :: 0 <= i < |acts| ==> Follows(kind, acts[..i], acts[i])
  }

  ghost predicate ValidDirs(kind: Kind, due: seq<Target>) {
    kind == TwoPoint ==> forall i :: 0 <= i < |due| ==> due[i].dir != Invalid
  }

  ghost predicate Sane(kind: Kind, c: Channel) {
    && c.on == StateOf(c.acts) && c.cur == LastDir(c.acts) && c.pulse == EndOf(LitBy(c.acts))
    && WellDriven(kind, c.acts)
    && ValidDirs(kind, c.due)
    && Nondecreasing(c.due)
    && (c.due != [] ==> c.due[|c.due| - 1].at - c.due[0].at <= MAX_DELAY)
  }

  lemma ActFollows(kind: Kind, acts: seq<Act>, next: Act)
    requires WellDriven(kind, acts) && Follows(kind, acts, next)
    ensures WellDriven(kind, acts + [next])
    ensures StateOf(acts + [next]) == (if next.On? then true else if next.Off? then false else StateOf(acts))
    ensures LastDir(acts + [next]) == (if next.On? then next.dir else if next.Forget? then Invalid else LastDir(acts))
    ensures LitBy(acts + [next]) == (if next.On? then Some(next) else if next.Off? then None else LitBy(acts))
  {
    var all := acts + [next];
    assert all[..|acts|] == acts;
    forall i | 0 <= i < |all|
      ensures Follows(kind, all[..i], all[i])
    {
      if i < |acts| {
        assert all[..i] == acts[..i];
      }
    }
  }

  lemma {:induction false} LitIsOn(acts: seq<Act>)
    ensures StateOf(acts) <==> LitBy(acts).Some?
  {
    if acts != [] {
      LitIsOn(acts[..|acts| - 1]);
    }
  }

  lemma EndPulseSane(kind: Kind, c: Channel, now: int)
    requires Sane(kind, c)
    ensures Sane(kind, EndPulse(c, now))
  {
    LitIsOn(c.acts);
    if c.on {
      ActFollows(kind, c.acts, Off);
      ActFollows(kind, c.acts + [Off], Ended);
      assert c.acts + [Off, Ended] == c.acts + [Off] + [Ended];
    }
  }

  lemma SwitchOnSane(kind: Kind, c: Channel, now: int, dir: Dir)
    requires Sane(kind, c) && (kind == TwoPoint ==> dir != Invalid)
    ensures Sane(kind, SwitchOn(kind, c, now, dir))
  {
    EndPulseSane(kind, c, now);
    if !(kind == TwoPoint && dir == c.cur) {
      ActFollows(kind, EndPulse(c, now).acts, On(dir, now, c.onTime));
    }
  }

  lemma FewerSane(kind: Kind, c: Channel, n: nat)
    requires Sane(kind, c) && n <= |c.due|
    ensures Sane(kind, c.(due := c.due[n..]))
  {
  }

  lemma {:induction false} RunDueSane(kind: Kind, c: Channel, now: int)
    requires Sane(kind, c)
    ensures Sane(kind, RunDue(kind, c, now))
    decreases |c.due|
  {
    if c.due != [] && c.due[0].at <= now {
      var d := c.(due := c.due[1..]);
      FewerSane(kind, c, 1);
      var next := SwitchOn(kind, d, now, c.due[0].dir);
      SwitchOnSane(kind, d, now, c.due[0].dir);
      RunDueSane(kind, next, now);
      assert RunDue(kind, c, now) == RunDue(kind, next, now);
    }
  }

  lemma ProcessSane(kind: Kind, c: Channel, now: int)
    requires Sane(kind, c)
    ensures Sane(kind, Process(kind, c, now))
  {
    EndPulseSane(kind, c, now);
    RunDueSane(kind, EndPulse(c, now), now);
  }

  /** After a run of the task nothing that is left was due at its time. */
  ghost predicate NothingDue(c: Channel, now: int) {
    (c.pulse.Some? ==> c.pulse.value > now) && (c.due != [] ==> c.due[0].at > now)
  }

  lemma {:induction false} RunDueClears(kind: Kind, c: Channel, now: int)
    requires c.pulse.Some? ==> c.pulse.value > now
    ensures NothingDue(RunDue(kind, c, now), now)
    decreases |c.due|
  {
    if c.due != [] && c.due[0].at <= now {
      RunDueStep(kind, c, now);
      RunDueClears(kind, SwitchOn(kind, c.(due := c.due[1..]), now, c.due[0].dir), now);
    }
  }

  lemma ProcessClears(kind: Kind, c: Channel, now: int)
    ensures NothingDue(Process(kind, c, now), now)
  {
    RunDueClears(kind, EndPulse(c, now), now);
  }

  /** A command only brings deadlines ahead of it. */
  lemma CommandDeadlines(kind: Kind, c: Channel, capacity: nat, now: int, delay: nat, dir: Dir)
    ensures var r := Command(kind, c, capacity, now, delay, dir);
            r.Some? ==>
              && (r.value.pulse.Some? ==> r.value.pulse == c.pulse || r.value.pulse.value > now)
              && (r.value.due != [] ==> (c.due != [] && r.value.due[0] == c.due[0]) || r.value.due[0].at > now)
  {
  }

  lemma CommandSane(kind: Kind, c: Channel, capacity: nat, now: int, delay: nat, dir: Dir)
    requires Sane(kind, c) && (kind == TwoPoint ==> dir != Invalid) && delay <= MAX_DELAY
    ensures var r := Command(kind, c, capacity, now, delay, dir); r.Some? ==> Sane(kind, r.value)
  {
    if capacity > 0 && c.due != [] {
    } else if delay == 0 {
      SwitchOnSane(kind, c, now, dir);
    }
  }

  lemma CancelSane(kind: Kind, c: Channel)
    requires Sane(kind, c)
    ensures Sane(kind, Cancel(c))
  {
    LitIsOn(c.acts);
    if c.on {
      ActFollows(kind, c.acts, Off);
    }
  }

  // ---------------------------------------------------------------- whole runs

  datatype Op =
    | Task(now: int)
    | Order(capacity: nat, now: int, delay: nat, dir: Dir)
    | Stop
    | ForgetDir
    | SetOnTime(onTime: nat)
    | DropQueue

  ghost predicate Allowed(kind: Kind, op: Op) {
    op.Order? ==> op.delay <= MAX_DELAY && (kind == TwoPoint ==> op.dir != Invalid)
  }

  function Apply(kind: Kind, c: Channel, op: Op): Channel {
    match op
    case Task(now) => Process(kind, c, now)
    case Order(capacity, now, delay, dir) =>
      (match Command(kind, c, capacity, now, delay, dir) case None => c case Some(d) => d)
    case Stop => Cancel(c)
    case ForgetDir => c.(cur := Invalid, acts := c.acts + [Forget])
    case SetOnTime(t) => c.(onTime := t)
    case DropQueue => c.(due := if c.due == [] then [] else c.due[..1])
  }

  function Start(onTime: nat): Channel {
    Channel(onTime, false, Invalid, None, [], [])
  }

  function AfterAll(kind: Kind, c: Channel, ops: seq<Op>): Channel {
    if ops == [] then c else Apply(kind, AfterAll(kind, c, ops[..|ops| - 1]), ops[|ops| - 1])
  }

  lemma ApplySane(kind: Kind, c: Channel, op: Op)
    requires Sane(kind, c) && Allowed(kind, op)
    ensures Sane(kind, Apply(kind, c, op))
  {
    match op
    case Task(now) => ProcessSane(kind, c, now);
    case Order(capacity, now, delay, dir) => CommandSane(kind, c, capacity, now, delay, dir);
    case Stop => CancelSane(kind, c);
    case ForgetDir => ActFollows(kind, c.acts, Forget);
    case SetOnTime(_) =>
    case DropQueue =>
  }

  /** Every reachable state, whatever the commands, the delays and the times at which the task gets to run. */
  lemma {:induction false} EveryRunSane(kind: Kind, onTime: nat, ops: seq<Op>)
    requires forall i :: 0 <= i < |ops| ==> Allowed(kind, ops[i])
    ensures Sane(kind, AfterAll(kind, Start(onTime), ops))
  {
    if ops != [] {
      EveryRunSane(kind, onTime, ops[..|ops| - 1]);
      ApplySane(kind, AfterAll(kind, Start(onTime), ops[..|ops| - 1]), ops[|ops| - 1]);
    }
  }

  /** With two coils, one ON and the next one, with no reset of the direction between them, differ in direction. */
  lemma SuccessiveOnsDiffer(kind: Kind, acts: seq<Act>, i: nat, j: nat)
    requires kind == TwoPoint && WellDriven(kind, acts)
    requires i < j < |acts| && acts[i].On? && acts[j].On?
    requires forall k :: i < k < j ==> !acts[k].On? && !acts[k].Forget?
    ensures acts[i].dir != acts[j].dir && acts[i].dir != Invalid && acts[j].dir != Invalid
  {
    DirHolds(acts, i, j);
    assert Follows(kind, acts[..i], acts[i]) && Follows(kind, acts[..j], acts[j]);
  }

  lemma {:induction false} DirHolds(acts: seq<Act>, i: nat, j: nat)
    requires i < j <= |acts| && acts[i].On?
    requires forall k :: i < k < j ==> !acts[k].On? && !acts[k].Forget?
    ensures LastDir(acts[..j]) == acts[i].dir
  {
    assert acts[..j][..j - 1] == acts[..j - 1];
    if i < j - 1 {
      DirHolds(acts, i, j - 1);
    }
  }

  /** OFF is never driven twice in a row: before it there is an ON, with no other OFF after that. */
  lemma OffFollowsOn(kind: Kind, acts: seq<Act>, j: nat) returns (i: nat)
    requires WellDriven(kind, acts) && j < |acts| && acts[j] == Off
    ensures i < j && acts[i].On? && forall k :: i < k < j ==> acts[k] != Off
  {
    assert Follows(kind, acts[..j], acts[j]);
    i := OnSince(acts, j);
  }

  lemma {:induction false} OnSince(acts: seq<Act>, j: nat) returns (i: nat)
    requires j <= |acts| && StateOf(acts[..j])
    ensures i < j && acts[i].On? && forall k :: i < k < j ==> acts[k] != Off
  {
    assert acts[..j][..j - 1] == acts[..j - 1];
    if acts[j - 1].On? {
      i := j - 1;
    } else {
      i := OnSince(acts, j - 1);
    }
  }

  /** A command is due no earlier than the one before it, never more than its delay after now, and no later than it
      asks for unless an earlier one still waits. */
  lemma QueuedTarget(kind: Kind, c: Channel, capacity: nat, now: int, delay: nat, dir: Dir)
    requires capacity > 0 && c.due != [] && Nondecreasing(c.due) && |c.due| <= capacity
    ensures var r := Command(kind, c, capacity, now, delay, dir);
            && r.Some? && r.value.due[..|c.due|] == c.due && Nondecreasing(r.value.due)
            && var at := r.value.due[|c.due|].at;
               && (now <= c.due[0].at ==> at == Max(c.due[|c.due| - 1].at, now + delay))
               && (now > c.due[0].at ==> at == Max(c.due[|c.due| - 1].at, c.due[0].at + delay))
  {
  }
}
