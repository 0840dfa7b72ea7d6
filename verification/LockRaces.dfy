/** What holds between whole commands but not between critical sections. */
module LockRaces {
  import opened Basics
  import opened Alarm
  import opened Locks

  ghost predicate Reachable(c: Config, s: State) {
    exists raw, now, beacons, acts :: Run(c, Initial(raw, now, beacons), acts) == s
  }

  lemma InitialReachable(c: Config, raw: bool, now: int, beacons: map<string, Beacon>)
    ensures Reachable(c, Initial(raw, now, beacons))
  {
    assert Run(c, Initial(raw, now, beacons), []) == Initial(raw, now, beacons);
  }

  lemma Extend(c: Config, s: State, act: Act) returns (t: State)
    requires Reachable(c, s)
    ensures t == Do(c, s, act) && Reachable(c, t)
  {
    t := Do(c, s, act);
    var raw, now, beacons, acts :| Run(c, Initial(raw, now, beacons), acts) == s;
    hide Do;
    assert (acts + [act])[..|acts|] == acts;
    assert Run(c, Initial(raw, now, beacons), acts + [act]) == t;
  }

  /** One poll up to its look at the mode, the source showing no change. */
  lemma UneventfulPoll(c: Config, s: State, now: int) returns (t: State)
    requires Reachable(c, s) && s.poll.PollTop? && s.bus.front == Front(false, false, false, false, false)
    ensures Reachable(c, t) && t == s.(poll := ReadMode(now))
  {
    var poll := Act.Poll(now, false, 0);
    t := Extend(c, s, poll); assert t.poll == ReadOverride(now, false);
    t := Extend(c, t, poll); assert t.poll == StoreRaw(now, false, false);
    t := Extend(c, t, poll); assert t.poll == Compare(now, false);
    t := Extend(c, t, poll); assert t.poll == SetSame(now, false);
    t := Extend(c, t, poll);
  }

  lemma ArmedBeforeScan(c: Config) returns (s: State)
    ensures Reachable(c, s)
    ensures s == Initial(false, 1, map[]).(
      bus := EnterState(Started(false, 1).bus.(generation := 1), Armed), poll := PollScan, log := [ArmedBy(PollTask)])
  {
    InitialReachable(c, false, 1, map[]);
    var now := 1 + Micros(c.exitGrace);
    s := UneventfulPoll(c, Initial(false, 1, map[]), now);
    hide Reachable;
    var poll := Act.Poll(now, false, 0);
    s := Extend(c, s, poll); assert s.poll == ReadGrace(now);
    s := Extend(c, s, poll); assert s.poll == PollBump;
    s := Extend(c, s, poll); assert s.poll == PollArm;
    s := Extend(c, s, poll);
  }

  /** The poll task arms the bus when the exit grace of a start with ignition off ends. */
  lemma ArmedByPoll(c: Config) returns (s: State)
    ensures Reachable(c, s)
    ensures s == Initial(false, 1, map[]).(
      bus := EnterState(Started(false, 1).bus.(generation := 1), Armed),
      log := [ArmedBy(PollTask), Offered({}), Scanned(PollTask)])
  {
    s := ArmedBeforeScan(c);
    assert NearIds(s.beacons) == {};
    hide Reachable;
    s := Extend(c, s, Act.Poll(0, false, 0));
  }

  /** An ignition edge takes the poll task to ACTIVE, whatever a command has decided. */
  lemma IgnitionEdge(c: Config, s: State) returns (t: State)
    requires Reachable(c, s) && s.poll.PollTop? && s.bus.front == Front(false, false, false, false, false)
    requires !s.bus.mode.Active?
    ensures Reachable(c, t) && t.command == s.command && t.bus.mode.Active? && t.bus.front.ignition
  {
    var poll := Act.Poll(2, true, 0);
    t := Extend(c, s, poll); assert t.poll == ReadOverride(2, true);
    t := Extend(c, t, poll); assert t.poll == StoreRaw(2, true, true);
    t := Extend(c, t, poll); assert t.poll == Compare(2, true);
    t := Extend(c, t, poll); assert t.poll == SetEdge(2, true);
    t := Extend(c, t, poll); assert t.poll == EnterEdge(2, true) && t.bus.front.ignition;
    t := Extend(c, t, poll);
  }

  lemma PendingThenClear(c: Config) returns (s: State)
    ensures Reachable(c, s) && s.poll.PollTop? && s.bus.front == Front(false, false, false, false, false)
    ensures s.bus.mode.Pending? && s.command == ClearEnter(false)
  {
    s := ArmedByPoll(c);
    s := Extend(c, s, Arrive(0));
    s := Extend(c, s, Act.Notify(0, 0)); assert s.notify == MarkingPending;
    s := Extend(c, s, Act.Notify(0, 0)); assert s.bus.mode.Pending?;
    s := Extend(c, s, Act.Clear);
  }

  /** distress_clear decides where to go in one region and goes there in another. An
      ignition edge in between leaves the bus armed with the ignition on, which between
      whole commands never happens. */
  lemma ArmedWithIgnitionOn(c: Config) returns (s: State)
    ensures Reachable(c, s) && s.bus.mode.Armed? && s.bus.front.ignition
  {
    s := PendingThenClear(c);
    s := IgnitionEdge(c, s);
    s := Extend(c, s, Act.Command(0));
  }

  predicate ArmedIgnited(s: State) { s.bus.mode.Armed? && s.bus.front.ignition }

  /** The regions that can leave the bus armed with the ignition on: one that arms it on a
      decision made before the ignition came on, and one that turns the ignition value on
      and has its own transition to ACTIVE still ahead of it. */
  predicate Races(s: State, act: Act) {
    match act
    case Poll(_, _, _) =>
      (match s.poll
       case PollArm => s.bus.front.ignition
       case SetEdge(_, e) => e && s.bus.mode.Armed?
       case SetSame(_, e) => e && s.bus.mode.Armed?
       case _ => false)
    case Command(_) =>
      (match s.command
       case ForceArm => s.bus.front.ignition
       case ClearEnter(ignition) => !ignition && s.bus.front.ignition
       case _ => false)
    case ForceEmpty(empty, _, _) => s.command.CommandIdle? && !empty && s.bus.mode.Armed?
    case _ => false
  }

  lemma ArmedWithIgnitionOnExactly(c: Config, s: State, act: Act)
    requires !ArmedIgnited(s)
    ensures ArmedIgnited(Do(c, s, act)) <==> Races(s, act)
  {
    match act
    case Poll(now, raw, co2) => PollRaces(s, now, raw, co2); hide PollEffect;
    case Command(co2) => CommandRaces(s, co2); hide CommandEffect;
    case _ =>
  }

  lemma PollRaces(s: State, now: int, raw: bool, co2: nat)
    requires !ArmedIgnited(s)
    ensures ArmedIgnited(PollEffect(s, co2)) <==> Races(s, Act.Poll(now, raw, co2))
  {
  }

  lemma CommandRaces(s: State, co2: nat)
    requires !ArmedIgnited(s)
    ensures ArmedIgnited(CommandEffect(s, co2)) <==> Races(s, Act.Command(co2))
  {
  }

  // ---- even so, alarms start with the ignition off ----

  predicate Alarming(m: Mode) { m.Pending? || m.Distress? }

  lemma AlarmStart(c: Config, s: State, act: Act)
    requires !Alarming(s.bus.mode) && Alarming(Do(c, s, act).bus.mode)
    ensures act.Notify? && s.bus.mode.Armed? && !s.bus.front.ignition && !Do(c, s, act).bus.front.ignition
  {
  }

  /** Section i of the run started the alarm: a notification section, on an armed bus with
      the ignition off; and it has not stopped since. */
  ghost predicate StartedAt(c: Config, s: State, acts: seq<Act>, i: int) {
    && 0 <= i < |acts| && acts[i].Notify?
    && Run(c, s, acts[..i]).bus.mode.Armed? && !Run(c, s, acts[..i]).bus.front.ignition
    && !Run(c, s, acts[..i + 1]).bus.front.ignition
    && forall k :: i < k <= |acts| ==> Alarming(Run(c, s, acts[..k]).bus.mode)
  }

  lemma StillGoing(c: Config, s: State, acts: seq<Act>, n: nat, i: nat)
    requires |acts| == n + 1 && StartedAt(c, s, acts[..n], i) && Alarming(Run(c, s, acts).bus.mode)
    ensures StartedAt(c, s, acts, i)
  {
    hide Run;
    hide Alarming;
    assert acts[..n + 1] == acts;
    assert acts[..n][..i + 1] == acts[..i + 1];
    assert forall k :: 0 <= k <= n ==> acts[..n][..k] == acts[..k];
  }

  /** Over every run: a bus that is PENDING or DISTRESS_ACTIVE got there through such a
      section and has been so ever since, whatever the ignition has done meanwhile. */
  lemma {:induction false} AlarmsStartWithIgnitionOff(
      c: Config, raw: bool, now: int, beacons: map<string, Beacon>, acts: seq<Act>) returns (i: nat)
    requires Alarming(Run(c, Initial(raw, now, beacons), acts).bus.mode)
    ensures StartedAt(c, Initial(raw, now, beacons), acts, i)
  {
    var s := Initial(raw, now, beacons);
    var n := |acts| - 1;
    var before := Run(c, s, acts[..n]);
    assert acts[..n + 1] == acts;
    if Alarming(before.bus.mode) {
      i := AlarmsStartWithIgnitionOff(c, raw, now, beacons, acts[..n]);
      StillGoing(c, s, acts, n, i);
    } else {
      AlarmStart(c, before, acts[n]);
      i := n;
    }
    hide Do;
  }

  // ---- the first broadcast and a clear racing it ----

  predicate Closes(m: Mark) {
    match m
    case ClearTaken => true
    case EnteredActive => true
    case DisarmTaken => true
    case _ => false
  }

  predicate ClosedSince(log: seq<Mark>, from: nat) {
    exists k :: from <= k < |log| && Closes(log[k])
  }

  /** What a section other than one of the notification task does to an open incident. */
  ghost predicate ClosesMarked(s: State, t: State) {
    && |s.log| <= |t.log| && t.log[..|s.log|] == s.log
    && (t.bus.incident.active <==> s.bus.incident.active && !ClosedSince(t.log, |s.log|))
    && t.notify == s.notify
  }

  lemma EnterCloses(s: State, m: Mode, task: Task)
    requires m.Active? || m.Armed? || m.ExitGrace?
    requires s.bus.incident.active ==> !s.bus.mode.Active?
    ensures ClosesMarked(s, Enter(s, m, task))
  {
    var t := Enter(s, m, task);
    if m.Active? && s.bus.mode != m { assert Closes(t.log[|s.log|]); }
  }

  /** An open incident is never in ACTIVE or DISARMED. */
  predicate OpenElsewhere(s: State) {
    s.bus.incident.active ==> !s.bus.mode.Active? && !s.bus.mode.Disarmed?
  }

  lemma PollOpenElsewhere(s: State, co2: nat)
    requires OpenElsewhere(s)
    ensures OpenElsewhere(PollEffect(s, co2)) && OpenElsewhere(CommandEffect(s, co2))
  {
  }

  lemma DoOpenElsewhere(c: Config, s: State, act: Act)
    requires OpenElsewhere(s)
    ensures OpenElsewhere(Do(c, s, act))
  {
    match act
    case Poll(_, _, co2) => PollOpenElsewhere(s, co2); hide PollEffect;
    case Command(co2) => PollOpenElsewhere(s, co2); hide CommandEffect;
    case _ =>
  }

  lemma {:induction false} RunsOpenElsewhere(
      c: Config, raw: bool, now: int, beacons: map<string, Beacon>, acts: seq<Act>)
    ensures OpenElsewhere(Run(c, Initial(raw, now, beacons), acts))
  {
    if acts != [] {
      RunsOpenElsewhere(c, raw, now, beacons, acts[..|acts| - 1]);
      DoOpenElsewhere(c, Run(c, Initial(raw, now, beacons), acts[..|acts| - 1]), acts[|acts| - 1]);
      hide Do;
    }
  }

  lemma PollCloses(s: State, co2: nat)
    requires OpenElsewhere(s)
    ensures ClosesMarked(s, PollEffect(s, co2))
  {
    EnterCloses(s, Active, PollTask);
    EnterCloses(s, Armed, PollTask);
    EnterCloses(s, ExitGrace, PollTask);
    hide Enter;
  }

  lemma ClearCloses(s: State)
    ensures ClosesMarked(s, ClearEffect(s))
  {
    assert Closes(ClearEffect(s).log[|s.log|]);
  }

  lemma CommandCloses(s: State, co2: nat)
    requires OpenElsewhere(s)
    ensures ClosesMarked(s, CommandEffect(s, co2))
  {
    EnterCloses(s, Active, CommandTask);
    EnterCloses(s, Armed, CommandTask);
    ClearCloses(s);
    hide Enter;
    hide ClearEffect;
  }

  lemma DisarmCloses(c: Config, s: State)
    requires OpenElsewhere(s)
    ensures ClosesMarked(s, Do(c, s, Act.Disarm))
  {
    var t := Do(c, s, Act.Disarm);
    if s.command.CommandIdle? && DisarmVerdict(s.bus).Ok? { assert Closes(t.log[|s.log|]); }
  }

  lemma OthersCloseMarked(c: Config, s: State, act: Act)
    requires OpenElsewhere(s) && !act.Notify? && !s.notify.Waiting?
    ensures ClosesMarked(s, Do(c, s, act))
  {
    match act
    case Poll(_, _, co2) => PollCloses(s, co2); hide PollEffect;
    case Command(co2) => CommandCloses(s, co2); hide CommandEffect;
    case Clear => ClearCloses(s);
    case Disarm => DisarmCloses(c, s);
    case _ =>
  }

  lemma ClosedJoin(x: seq<Mark>, y: seq<Mark>, from: nat)
    requires from <= |x| <= |y| && y[..|x|] == x
    ensures ClosedSince(y, from) <==> ClosedSince(x, from) || ClosedSince(y, |x|)
  {
    if k :| from <= k < |x| && Closes(x[k]) { assert y[k] == x[k]; }
    if k :| from <= k < |y| && Closes(y[k]) { if k < |x| { assert x[k] == y[k]; } }
  }

  lemma {:induction false} ClosedExactly(c: Config, s: State, acts: seq<Act>)
    requires OpenElsewhere(s) && !s.notify.Waiting?
    requires forall k :: 0 <= k < |acts| ==> !acts[k].Notify?
    ensures OpenElsewhere(Run(c, s, acts)) && ClosesMarked(s, Run(c, s, acts))
  {
    if acts != [] {
      hide Do;
      var n := |acts| - 1;
      ClosedExactly(c, s, acts[..n]);
      var u := Run(c, s, acts[..n]);
      DoOpenElsewhere(c, u, acts[n]);
      OthersCloseMarked(c, u, acts[n]);
      var t := Do(c, u, acts[n]);
      ClosedJoin(u.log, t.log, |s.log|);
      assert t.log[..|s.log|] == t.log[..|u.log|][..|s.log|];
      hide ClosedSince;
    }
  }

  lemma OpensAlarm(c: Config, s: State, act: Act)
    requires !s.bus.mode.Distress? && Do(c, s, act).bus.mode.Distress?
    ensures Do(c, s, act).notify.Publishing? && Do(c, s, act).bus.incident.active
  {
  }

  lemma Publishes(c: Config, s: State, act: Act)
    requires s.notify.Publishing? && act.Notify?
    ensures Do(c, s, act).log == s.log + [FirstPublish(s.bus.incident.id)]
  {
  }

  /** The transition and the first broadcast are two sections. Over every run, whatever the
      other tasks do between them: the broadcast names no incident if and only if a clear,
      an entry to ACTIVE or a disarm came in between. */
  lemma FirstPublishNamelessExactly(
      c: Config, raw: bool, now: int, beacons: map<string, Beacon>,
      before: seq<Act>, opening: Act, acts: seq<Act>, publish: Act)
    requires var s := Run(c, Initial(raw, now, beacons), before);
      !s.bus.mode.Distress? && Do(c, s, opening).bus.mode.Distress?
    requires publish.Notify? && forall k :: 0 <= k < |acts| ==> !acts[k].Notify?
    ensures var begun := Do(c, Run(c, Initial(raw, now, beacons), before), opening);
      var u := Run(c, begun, acts);
      && Do(c, u, publish).log == u.log + [FirstPublish(u.bus.incident.id)]
      && (u.bus.incident.id.None? <==> ClosedSince(u.log, |begun.log|))
  {
    var s := Run(c, Initial(raw, now, beacons), before);
    var begun := Do(c, s, opening);
    var u := Run(c, begun, acts);
    RunsOpenElsewhere(c, raw, now, beacons, before);
    DoOpenElsewhere(c, s, opening);
    OpensAlarm(c, s, opening);
    RunsKeepIncident(c, raw, now, beacons, before);
    RegionsOk(c, s, opening);
    ClosedExactly(c, begun, acts);
    RunKeepsIncidentFrom(c, begun, acts);
    Publishes(c, u, publish);
    hide Do;
    hide Run;
    hide ClosedSince;
  }

  lemma {:induction false} RunKeepsIncidentFrom(c: Config, s: State, acts: seq<Act>)
    requires IncidentOk(s.bus.incident)
    ensures IncidentOk(Run(c, s, acts).bus.incident)
  {
    if acts != [] {
      RunKeepsIncidentFrom(c, s, acts[..|acts| - 1]);
      RegionsOk(c, Run(c, s, acts[..|acts| - 1]), acts[|acts| - 1]);
      hide Do;
    }
  }

  lemma AlarmBeforePublish(c: Config) returns (s: State)
    ensures Reachable(c, s) && s.notify.Publishing? && s.bus.mode.Distress? && s.command.CommandIdle?
  {
    s := ArmedByPoll(c);
    hide Reachable;
    var now := Micros(c.initialDelay);
    var go := Act.Notify(now, 0);
    s := Extend(c, s, Arrive(0));
    s := Extend(c, s, go); assert s.notify == MarkingPending;
    s := Extend(c, s, go); assert s.bus.mode.Pending? && s.notify == CheckMode;
    s := Extend(c, s, go); assert s.notify == CheckAcked;
    s := Extend(c, s, go); assert s.notify == CheckElapsed;
    s := Extend(c, s, go); assert s.notify == MarkingActive;
    s := Extend(c, s, go);
  }

  /** It does happen: a clear between the two. */
  lemma NamelessFirstPublish(c: Config) returns (s: State)
    ensures Reachable(c, s) && s.log != [] && s.log[|s.log| - 1] == FirstPublish(None)
  {
    s := AlarmBeforePublish(c);
    s := Extend(c, s, Act.Clear);
    assert s.notify.Publishing? && s.bus.incident.id.None?;
    s := Extend(c, s, Act.Notify(0, 0));
  }
}
