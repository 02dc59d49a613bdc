/** What a solenoid channel is to do, told with absolute times: a list of waiting commands, each with the time it is
    due, and a pulse with the time it ends. No clock wraps here, and no delay is stored as a difference. */
module SolenoidSpec {
  import opened Options

  datatype Kind = OnePoint | TwoPoint | ThreePoint

  datatype Dir = Invalid | Left | Right

  /** A waiting command. */
  datatype Target = Target(at: int, dir: Dir)

  /** What the outside sees of a channel, and the resets of its direction: act_control ON, when and for how many ms, and
      OFF, and evt_off. */
  datatype Act = On(dir: Dir, at: int, time: nat) | Off | Ended | Forget

  datatype Channel = Channel(
    onTime: nat,          // length of a pulse in milliseconds, 0 for one that lasts
    on: bool,
    cur: Dir,
    pulse: Option<int>,   // when the pulse ends
    due: seq<Target>,
    acts: seq<Act>)       // everything so far

  const MAX_DELAY: int := 65_535_000

  // ---------------------------------------------------------------- the operations

  function SwitchOff(c: Channel): Channel {
    c.(on := false, acts := c.acts + [Off])
  }

  function EndPulse(c: Channel, now: int): Channel {
    if c.pulse == None || c.pulse.value > now then c
    else if c.on then c.(pulse := None, on := false, acts := c.acts + [Off, Ended])
    else c.(pulse := None)
  }

  function SwitchOn(kind: Kind, c: Channel, now: int, dir: Dir): Channel {
    if kind == TwoPoint && dir == c.cur then c else
    var e := EndPulse(c, now);
    e.(on := true, cur := dir, acts := e.acts + [On(dir, now, c.onTime)],
       pulse := if c.onTime == 0 then None else Some(now + c.onTime * 1000))
  }

  /** Carries out the commands that are due, one after the other. */
  function RunDue(kind: Kind, c: Channel, now: int): Channel
    decreases |c.due|
  {
    if c.due == [] || c.due[0].at > now then c
    else RunDue(kind, SwitchOn(kind, c.(due := c.due[1..]), now, c.due[0].dir), now)
  }

  lemma RunDueStep(kind: Kind, c: Channel, now: int)
    requires c.due != [] && c.due[0].at <= now
    ensures RunDue(kind, c, now) == RunDue(kind, SwitchOn(kind, c.(due := c.due[1..]), now, c.due[0].dir), now)
  {
  }

  /** What a run of the task does to a channel. */
  function Process(kind: Kind, c: Channel, now: int): Channel {
    RunDue(kind, EndPulse(c, now), now)
  }

  function Max(a: int, b: int): int {
    if a < b then b else a
  }

  function Min(a: int, b: int): int {
    if a < b then a else b
  }

  /** When a command that comes at now with a delay is to be due behind others: counted from now, or from the waiting
      deadline if that is over, but never before the command in front of it. */
  function QueuedAt(due: seq<Target>, now: int, delay: int): int
    requires due != []
  {
    Max(due[|due| - 1].at, Min(now, due[0].at) + delay)
  }

  /** A command that comes at now: None if the queue has no room. capacity is 0 for a channel without a queue. */
  function Command(kind: Kind, c: Channel, capacity: nat, now: int, delay: nat, dir: Dir): Option<Channel> {
    if capacity > 0 && c.due != [] then
      if |c.due| - 1 >= capacity then None
      else Some(c.(due := c.due + [Target(QueuedAt(c.due, now, delay), dir)]))
    else if delay > 0 then Some(c.(due := [Target(now + delay, dir)]))
    else Some(SwitchOn(kind, c, now, dir))
  }

  /** Switches off and drops every waiting command. */
  function Cancel(c: Channel): Channel {
    var d := c.(due := [], pulse := None);
    if c.on then SwitchOff(d) else d
  }

  // ---------------------------------------------------------------- the waiting commands

  ghost predicate Nondecreasing(due: seq<Target>) {
    forall i, j :: 0 <= i < j < |due| ==> due[i].at <= due[j].at
  }

  /** The commands due at now: those in front whose time has come. */
  function DueCount(due: seq<Target>, now: int): (n: nat)
    ensures n <= |due|
    ensures forall i :: 0 <= i < n ==> due[i].at <= now
    ensures n < |due| ==> due[n].at > now
  {
    if due == [] || due[0].at > now then 0 else 1 + DueCount(due[1..], now)
  }

  function RunAll(kind: Kind, c: Channel, now: int, commands: seq<Target>): Channel
    decreases |commands|
  {
    if commands == [] then c else RunAll(kind, SwitchOn(kind, c, now, commands[0].dir), now, commands[1..])
  }

  lemma SwitchOnLeavesDue(kind: Kind, c: Channel, now: int, dir: Dir, due: seq<Target>)
    ensures SwitchOn(kind, c, now, dir).due == c.due
    ensures SwitchOn(kind, c, now, dir).(due := due) == SwitchOn(kind, c.(due := due), now, dir)
  {
  }

  /** A run carries out exactly the commands whose time has come, in order; the others keep their times, however late
      the run is. */
  lemma {:induction false} RunsExactlyTheDue(kind: Kind, c: Channel, now: int, n: nat)
    requires n == DueCount(c.due, now)
    ensures RunDue(kind, c, now) == RunAll(kind, c.(due := c.due[n..]), now, c.due[..n])
    ensures RunDue(kind, c, now).due == c.due[n..]
    decreases |c.due|
  {
    hide SwitchOn, RunDue;
    var later, commands := c.due[n..], c.due[..n];
    if n == 0 {
      NothingDueYet(kind, c, now);
      assert later == c.due && commands == [];
    } else {
      var first, rest := c.due[0], c.due[1..];
      var next := SwitchOn(kind, c.(due := rest), now, first.dir);
      SwitchOnLeavesDue(kind, c.(due := rest), now, first.dir, later);
      assert next.due == rest;
      RunsExactlyTheDue(kind, next, now, n - 1);
      assert commands[1..] == rest[..n - 1] && later == rest[n - 1..];
      RunDueStep(kind, c, now);
    }
  }

  lemma NothingDueYet(kind: Kind, c: Channel, now: int)
    requires DueCount(c.due, now) == 0
    ensures RunDue(kind, c, now) == c
  {
  }

  /** With the targets in order, being due is having a time that has come. */
  lemma DueIsByTime(due: seq<Target>, now: int, i: nat)
    requires Nondecreasing(due) && i < |due|
    ensures i < DueCount(due, now) <==> due[i].at <= now
  {
  }

  lemma ProcessLeaves(kind: Kind, c: Channel, now: int)
    ensures Process(kind, c, now).due == c.due[DueCount(c.due, now)..]
  {
    RunsExactlyTheDue(kind, EndPulse(c, now), now, DueCount(c.due, now));
  }

  /** An earlier run before a late one leaves the same commands waiting, with the same times. */
  lemma LateRunKeepsTimes(kind: Kind, c: Channel, early: int, late: int)
    requires early <= late
    ensures Process(kind, Process(kind, c, early), late).due == Process(kind, c, late).due
  {
    var k := DueCount(c.due, early);
    ProcessLeaves(kind, c, early);
    ProcessLeaves(kind, c, late);
    ProcessLeaves(kind, Process(kind, c, early), late);
    EarlierIsFewer(c.due, early, late);
    SplitDue(c.due, late, k);
  }

  lemma {:induction false} SplitDue(due: seq<Target>, now: int, k: nat)
    requires k <= DueCount(due, now)
    ensures DueCount(due, now) == k + DueCount(due[k..], now)
  {
    if k > 0 {
      SplitDue(due[1..], now, k - 1);
      assert due[1..][k - 1..] == due[k..];
    } else {
      assert due[0..] == due;
    }
  }

  lemma {:induction false} EarlierIsFewer(due: seq<Target>, early: int, late: int)
    requires early <= late
    ensures DueCount(due, early) <= DueCount(due, late)
  {
    if due != [] && due[0].at <= early {
      EarlierIsFewer(due[1..], early, late);
    }
  }
}
