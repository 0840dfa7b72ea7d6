/** Timing and evidence of the alarm over coarse runs. */
module AlarmTiming {
  import opened Basics
  import opened Alarm
  import opened AlarmInvariant

  /** Strength of the evidence an alarm carries. */
  function Rank(t: Trigger): nat {
    match t
    case PresenceDetected => 0
    case Co2Rise => 1
    case BeaconNear => 2
  }

  /** Evidence of a live alarm is only ever replaced by strictly stronger evidence. */
  lemma EvidenceOnlyImproves(c: Config, f: Firmware, cmd: Command)
    ensures var g := Step(c, f, cmd).0;
      !f.tracker.phase.Idle? ==>
        g.tracker.event == f.tracker.event ||
        (Rank(f.tracker.event.trigger) < Rank(g.tracker.event.trigger) &&
         cmd.Notify? && cmd.arrived == Some(g.tracker.event))
  {
  }

  // ---- the delay before the first broadcast ----

  /** Command i put the bus into the pending window and it stayed there up to command n. */
  ghost predicate PendingSince(c: Config, f: Firmware, cmds: seq<Command>, i: nat, n: nat)
    requires i < n <= |cmds|
  {
    && cmds[i].Notify?
    && !After(c, f, cmds[..i]).bus.mode.Pending?
    && forall k :: i < k <= n ==> After(c, f, cmds[..k]).bus.mode.Pending?
  }

  lemma PendingOpensOnReceipt(c: Config, f: Firmware, cmd: Command)
    requires Joint(f) && Step(c, f, cmd).0.bus.mode.Pending?
    ensures var g := Step(c, f, cmd).0;
      if f.bus.mode.Pending? then g.tracker.triggerTime == f.tracker.triggerTime
      else cmd.Notify? && g.tracker.triggerTime == cmd.receivedAt
  {
  }

  lemma DistressOpensOnElapsed(c: Config, f: Firmware, cmd: Command)
    requires Joint(f) && !f.bus.mode.Distress? && Step(c, f, cmd).0.bus.mode.Distress?
    ensures cmd.Notify?
    ensures if f.bus.mode.Pending? then Elapsed(f.tracker.triggerTime, cmd.now) >= c.initialDelay
            else f.bus.mode.Armed? && Elapsed(cmd.receivedAt, cmd.now) >= c.initialDelay
  {
  }

  lemma {:induction false} PendingHasOrigin(c: Config, f: Firmware, cmds: seq<Command>) returns (i: nat)
    requires Joint(f) && !f.bus.mode.Pending?
    requires After(c, f, cmds).bus.mode.Pending?
    ensures i < |cmds| && PendingSince(c, f, cmds, i, |cmds|)
    ensures cmds[i].receivedAt == After(c, f, cmds).tracker.triggerTime
  {
    hide Step;
    hide Joint;
    assert cmds != [];
    var n := |cmds| - 1;
    var before := cmds[..n];
    assert cmds[..|cmds|] == cmds;
    JointAfter(c, f, before);
    PendingOpensOnReceipt(c, After(c, f, before), cmds[n]);
    if After(c, f, before).bus.mode.Pending? {
      i := PendingHasOrigin(c, f, before);
      assert before[..i] == cmds[..i];
      forall k | i < k <= |cmds| ensures After(c, f, cmds[..k]).bus.mode.Pending? {
        if k < |cmds| { assert before[..k] == cmds[..k]; }
      }
    } else {
      i := n;
    }
  }

  lemma {:induction false} JointAfter(c: Config, f: Firmware, cmds: seq<Command>)
    requires Joint(f)
    ensures Joint(After(c, f, cmds))
  {
    if cmds != [] {
      JointAfter(c, f, cmds[..|cmds| - 1]);
      StepKeepsJoint(c, After(c, f, cmds[..|cmds| - 1]), cmds[|cmds| - 1]);
    }
  }

  /** Command cmd, after cmds, sets the alarm off. */
  ghost predicate SetsOff(c: Config, f: Firmware, cmds: seq<Command>, cmd: Command) {
    !After(c, f, cmds).bus.mode.Distress? && Step(c, After(c, f, cmds), cmd).0.bus.mode.Distress?
  }

  /** The alarm goes off only at a notification iteration at least the initial delay
      after the very iteration that opened its own pending window. */
  lemma DistressWaitsOutTheDelay(c: Config, raw: bool, start: int, cmds: seq<Command>, cmd: Command)
    returns (i: nat)
    ensures SetsOff(c, Started(raw, start), cmds, cmd) ==>
      && cmd.Notify? && i <= |cmds| && (cmds + [cmd])[i].Notify?
      && (c.initialDelay == 0 || cmd.now - (cmds + [cmd])[i].receivedAt >= Micros(c.initialDelay))
      && (i < |cmds| ==> PendingSince(c, Started(raw, start), cmds, i, |cmds|))
      && (i == |cmds| ==> After(c, Started(raw, start), cmds).bus.mode.Armed?)
  {
    var f0 := Started(raw, start);
    var f := After(c, f0, cmds);
    assert Joint(f0);
    hide Step;
    hide Joint;
    i := 0;
    if SetsOff(c, f0, cmds, cmd) {
      RunsKeepJoint(c, raw, start, cmds);
      DistressOpensOnElapsed(c, f, cmd);
      if f.bus.mode.Pending? {
        i := PendingHasOrigin(c, f0, cmds);
      } else {
        i := |cmds|;
      }
    }
  }

  // ---- how often one alarm is published ----

  function Count(out: seq<Output>): nat {
    if out == [] then 0 else (if out[0].Published? then 1 else 0) + Count(out[1..])
  }

  /** Messages published by notification iterations of the run. */
  function Publishes(c: Config, f: Firmware, cmds: seq<Command>): nat {
    if cmds == [] then 0
    else
      var before := cmds[..|cmds| - 1];
      var last := cmds[|cmds| - 1];
      Publishes(c, f, before) +
      if last.Notify? then Count(Step(c, After(c, f, before), last).1) else 0
  }

  /** The tracker broadcasts before every command of the run: one alarm's lifetime. */
  ghost predicate OneLifetime(c: Config, f: Firmware, cmds: seq<Command>) {
    forall k :: 0 <= k < |cmds| ==> After(c, f, cmds[..k]).tracker.phase.Broadcasting?
  }

  ghost predicate NoLaterThan(cmds: seq<Command>, last: int) {
    forall k :: 0 <= k < |cmds| && cmds[k].Notify? ==> cmds[k].now <= last
  }

  lemma CountOfTwo(x: seq<Output>, y: seq<Output>)
    requires |x| <= 1 && |y| <= 1
    requires (forall o :: o in x ==> o.Published?) && forall o :: o in y ==> o.Published?
    ensures Count(x + y) == |x| + |y|
  {
    if x == [] {
      assert x + y == y;
      if y != [] { assert y[0] in y && y[1..] == []; }
    } else {
      assert x[0] in x && (x + y)[1..] == y;
      if y != [] { assert y[0] in y && y[1..] == []; }
    }
  }

  /** Taking an event publishes only where it improves the evidence. */
  lemma ReceivePublishes(f: Firmware, e: Event, at: int)
    requires f.tracker.phase.Broadcasting?
    ensures var (g, out) := Receive(f, e, at);
      && |out| <= 1 && (forall o :: o in out ==> o.Published?)
      && |out| <= Rank(g.tracker.event.trigger) - Rank(f.tracker.event.trigger)
      && g.tracker.lastSend == f.tracker.lastSend && g.tracker.phase.Broadcasting?
  {
  }

  /** The rest of the iteration publishes only a repeat that is due. */
  lemma AdvancePublishes(c: Config, f: Firmware, now: int, wall: nat)
    requires !f.tracker.phase.Triggered? && ValidConfig(c)
    ensures var (g, out) := Advance(c, f, now, wall);
      && |out| <= 1 && (forall o :: o in out ==> o.Published?) && g.tracker.event == f.tracker.event
      && (if out == [] then g.tracker.lastSend == f.tracker.lastSend
          else g.tracker.lastSend == now && Micros(c.repeatInterval) <= now - f.tracker.lastSend)
  {
  }

  lemma PublishesOfOneIteration(c: Config, f: Firmware, cmd: Command) returns (repeated: nat, updated: nat)
    requires f.tracker.phase.Broadcasting? && cmd.Notify? && ValidConfig(c)
    ensures var (g, out) := Step(c, f, cmd);
      && Count(out) == repeated + updated
      && repeated * Micros(c.repeatInterval) <= g.tracker.lastSend - f.tracker.lastSend
      && updated <= Rank(g.tracker.event.trigger) - Rank(f.tracker.event.trigger)
      && (g.tracker.lastSend == f.tracker.lastSend || g.tracker.lastSend == cmd.now)
  {
    if cmd.arrived.Some? { ReceivePublishes(f, cmd.arrived.value, cmd.receivedAt); }
    var (f1, x) := if cmd.arrived.Some? then Receive(f, cmd.arrived.value, cmd.receivedAt) else (f, []);
    AdvancePublishes(c, Settle(f1), cmd.now, cmd.wall);
    var (f2, y) := Advance(c, Settle(f1), cmd.now, cmd.wall);
    CountOfTwo(x, y);
    updated, repeated := |x|, |y|;
    assert repeated == 0 || repeated == 1;
    assert Step(c, f, cmd) == (f2, x + y);
    hide Receive;
    hide Advance;
    hide Count;
    hide Rank;
    hide Step;
  }

  lemma OtherCommandsKeepTracker(c: Config, f: Firmware, cmd: Command)
    requires Joint(f) && f.tracker.phase.Broadcasting? && !cmd.Notify?
    ensures Step(c, f, cmd).0.tracker == f.tracker
  {
  }

  lemma {:induction false} PublishesSplit(c: Config, f: Firmware, cmds: seq<Command>, last: int)
    returns (repeated: nat, updated: nat)
    requires ValidConfig(c) && Joint(f) && OneLifetime(c, f, cmds)
    requires f.tracker.lastSend <= last && NoLaterThan(cmds, last)
    ensures var g := After(c, f, cmds);
      && Publishes(c, f, cmds) == repeated + updated
      && repeated * Micros(c.repeatInterval) <= g.tracker.lastSend - f.tracker.lastSend
      && updated <= Rank(g.tracker.event.trigger) - Rank(f.tracker.event.trigger)
      && g.tracker.lastSend <= last
  {
    hide Step;
    hide Joint;
    repeated, updated := 0, 0;
    if cmds != [] {
      var before := cmds[..|cmds| - 1];
      var cmd := cmds[|cmds| - 1];
      forall k | 0 <= k < |before| ensures After(c, f, before[..k]).tracker.phase.Broadcasting? {
        assert before[..k] == cmds[..k];
      }
      repeated, updated := PublishesSplit(c, f, before, last);
      var g := After(c, f, before);
      JointAfter(c, f, before);
      assert cmds[..|before|] == before;
      if cmd.Notify? {
        var r, u := PublishesOfOneIteration(c, g, cmd);
        Distribute(repeated, r, Micros(c.repeatInterval));
        repeated, updated := repeated + r, updated + u;
      } else {
        OtherCommandsKeepTracker(c, g, cmd);
      }
    }
  }

  lemma Distribute(x: int, y: int, d: int)
    ensures (x + y) * d == x * d + y * d
  {
  }

  /** From the first broadcast of an alarm, `first`, to the end of its tracker's life,
      `last`, the notification task publishes at most one message per repeat interval
      beyond the first, and one per improvement of the evidence. */
  lemma PublishBound(c: Config, f: Firmware, first: Command, cmds: seq<Command>, last: int)
    requires ValidConfig(c) && Joint(f)
    requires !f.bus.mode.Distress? && Step(c, f, first).0.bus.mode.Distress?
    requires OneLifetime(c, Step(c, f, first).0, cmds)
    requires NoLaterThan([first] + cmds, last)
    ensures first.Notify?
    ensures var g := Step(c, f, first).0;
      Count(Step(c, f, first).1) + Publishes(c, g, cmds) <=
        1 + (last - first.now) / Micros(c.repeatInterval) + (2 - Rank(g.tracker.event.trigger))
  {
    var (g, out) := Step(c, f, first);
    FirstBroadcast(c, f, first);
    assert ([first] + cmds)[0] == first;
    assert NoLaterThan(cmds, last) by {
      forall k | 0 <= k < |cmds| && cmds[k].Notify? ensures cmds[k].now <= last {
        assert ([first] + cmds)[k + 1] == cmds[k];
      }
    }
    hide Step;
    hide Joint;
    var repeated, updated := PublishesSplit(c, g, cmds, last);
    QuotientBound(repeated, Micros(c.repeatInterval), last - first.now);
  }

  lemma FirstBroadcast(c: Config, f: Firmware, first: Command)
    requires Joint(f) && !f.bus.mode.Distress? && Step(c, f, first).0.bus.mode.Distress?
    ensures var (g, out) := Step(c, f, first);
      && first.Notify? && Joint(g) && g.tracker.phase.Broadcasting? && g.tracker.lastSend == first.now
      && out == [Published(g.bus.incident.id, g.tracker.event)] && g.bus.incident.id.Some? && Count(out) == 1
  {
    StepKeepsJoint(c, f, first);
    var (f1, out1) := if first.arrived.Some? then Receive(f, first.arrived.value, first.receivedAt) else (f, []);
    assert out1 == [];
  }

  // ---- messages without an incident id ----

  /** The two situations in which a tracker outlives its incident and still publishes:
      better evidence arriving while the bus is armed, and a repeat falling due after
      the ignition went on and off again between two notification iterations. */
  predicate StaleBroadcast(c: Config, f: Firmware, cmd: Command) {
    && cmd.Notify? && f.tracker.phase.Broadcasting? && !f.bus.incident.active
    && ((f.bus.mode.Armed? && cmd.arrived.Some? && BetterTrigger(f.tracker.event, cmd.arrived.value)) ||
        (f.bus.mode.ExitGrace? && Elapsed(f.tracker.lastSend, cmd.now) >= c.repeatInterval))
  }

  /** Every published message carries the id of a live incident, except exactly then. */
  lemma EmptyIdExactly(c: Config, f: Firmware, cmd: Command)
    requires Joint(f)
    ensures (exists e :: Published(None, e) in Step(c, f, cmd).1) <==> StaleBroadcast(c, f, cmd)
  {
    if cmd.Notify? {
      var (f1, out1) := if cmd.arrived.Some? then Receive(f, cmd.arrived.value, cmd.receivedAt) else (f, []);
      var f2 := Settle(f1);
      var out2 := Advance(c, f2, cmd.now, cmd.wall).1;
      assert Step(c, f, cmd).1 == out1 + out2;
      if StaleBroadcast(c, f, cmd) {
        if f.bus.mode.Armed? {
          assert out1 == [Published(None, cmd.arrived.value)];
          assert Published(None, cmd.arrived.value) in out1 + out2;
        } else {
          assert out2 == [Published(None, f1.tracker.event)];
          assert Published(None, f1.tracker.event) in out1 + out2;
        }
      }
    }
  }

  /** The second situation does occur: a repeat of a dead alarm, with no id, in the exit
      grace that follows a short ignition pulse. */
  lemma StaleBroadcastReachable(c: Config, e: Event)
    returns (cmds: seq<Command>, cmd: Command)
    requires ValidConfig(c) && 0 < c.exitGrace
    ensures StaleBroadcast(c, After(c, Started(false, 1), cmds), cmd)
  {
    var armedAt := 1 + Micros(c.exitGrace);
    var firedAt := armedAt + Micros(c.initialDelay);
    var f0 := Started(false, 1);
    var c1 := Poll(armedAt, false, 0);
    var c2 := Notify(Some(e), armedAt, firedAt, 0);
    var c3 := Poll(firedAt, true, 0);
    var c4 := Poll(firedAt + 1, false, 0);
    var f1 := Step(c, f0, c1).0;
    var f2 := Step(c, f1, c2).0;
    var f3 := Step(c, f2, c3).0;
    var f4 := Step(c, f3, c4).0;
    assert f1.bus.mode.Armed?;
    assert f2.bus.mode.Distress? && f2.tracker.lastSend == firedAt;
    assert f3.bus.mode.Active?;
    assert f4.bus.mode.ExitGrace?;
    cmds := [c1, c2, c3, c4];
    cmd := Notify(None, 0, firedAt + Micros(c.repeatInterval), 0);
    assert StaleBroadcast(c, f4, cmd);
    hide *;
    assert [] + [c1] == [c1] && [c1] + [c2] == [c1, c2] && [c1, c2] + [c3] == [c1, c2, c3];
    assert [c1, c2, c3] + [c4] == cmds;
    OneMore(c, f0, [], c1);
    OneMore(c, f0, [c1], c2);
    OneMore(c, f0, [c1, c2], c3);
    OneMore(c, f0, [c1, c2, c3], c4);
  }

  lemma OneMore(c: Config, f: Firmware, cmds: seq<Command>, cmd: Command)
    ensures After(c, f, cmds + [cmd]) == Step(c, After(c, f, cmds), cmd).0
    ensures After(c, f, []) == f
  {
    hide Step;
    assert (cmds + [cmd])[..|cmds|] == cmds;
  }

  /** A manual bus-empty command during an alarm leaves the bus merely armed while the
      incident, its id and its acknowledgement stay exactly as they were. */
  lemma ForceEmptyKeepsIncident(c: Config, f: Firmware, raw: bool, now: int, co2: nat)
    requires Joint(f) && f.bus.incident.active
    ensures var g := Step(c, f, ForceEmpty(true, raw, now, co2)).0;
      && g.bus.mode.Armed? && g.bus.incident.active && g.bus.incident.id == f.bus.incident.id
      && g.bus.incident.acknowledged == f.bus.incident.acknowledged && g.tracker == f.tracker
      && (DisarmVerdict(g.bus).Ok? <==> f.bus.incident.acknowledged)
  {
  }

  predicate ArmedWithIncident(f: Firmware) { f.bus.mode.Armed? && f.bus.incident.active }

  /** Nothing but that command leaves the bus merely armed with an incident open. */
  lemma ArmedWithIncidentExactly(c: Config, f: Firmware, cmd: Command)
    requires Joint(f) && !ArmedWithIncident(f)
    ensures ArmedWithIncident(Step(c, f, cmd).0) <==> cmd.ForceEmpty? && cmd.empty && f.bus.incident.active
  {
    StepKeepsJoint(c, f, cmd);
  }

  ghost predicate ForcedDuringIncident(c: Config, f: Firmware, cmds: seq<Command>) {
    exists i :: ForcedAt(c, f, cmds, i)
  }

  /** Command i was that command, and the bus has stayed so ever since. */
  ghost predicate ForcedAt(c: Config, f: Firmware, cmds: seq<Command>, i: int) {
    && 0 <= i < |cmds|
    && cmds[i].ForceEmpty? && cmds[i].empty && After(c, f, cmds[..i]).bus.incident.active
    && forall k :: i < k <= |cmds| ==> ArmedWithIncident(After(c, f, cmds[..k]))
  }

  /** Over every run: the bus is merely armed with an incident open exactly when a manual
      bus-empty came during the incident and neither has changed since. */
  lemma {:induction false} ArmedWithIncidentHasCause(c: Config, f: Firmware, cmds: seq<Command>)
    requires Joint(f) && !ArmedWithIncident(f)
    ensures ArmedWithIncident(After(c, f, cmds)) <==> ForcedDuringIncident(c, f, cmds)
  {
    hide Step;
    hide Joint;
    hide ArmedWithIncident;
    assert cmds[..|cmds|] == cmds;
    if ArmedWithIncident(After(c, f, cmds)) {
      var n := |cmds| - 1;
      var before := After(c, f, cmds[..n]);
      JointAfter(c, f, cmds[..n]);
      if ArmedWithIncident(before) {
        ArmedWithIncidentHasCause(c, f, cmds[..n]);
        var i :| ForcedAt(c, f, cmds[..n], i);
        assert forall k :: 0 <= k <= n ==> cmds[..n][..k] == cmds[..k];
        assert forall k :: i < k <= n ==> ArmedWithIncident(After(c, f, cmds[..n][..k]));
        assert ForcedAt(c, f, cmds, i);
      } else {
        ArmedWithIncidentExactly(c, before, cmds[n]);
        assert ForcedAt(c, f, cmds, n);
      }
    }
  }

  /** Arm, raise an alarm at once: the shortest way to a sounding alarm. */
  function ToDistress(c: Config, e: Event): seq<Command> {
    var armedAt := 1 + Micros(c.exitGrace);
    [Poll(armedAt, false, 0), Notify(Some(e), armedAt, armedAt + Micros(c.initialDelay), 0)]
  }

  lemma DistressReachable(c: Config, e: Event) returns (f: Firmware)
    ensures f == After(c, Started(false, 1), ToDistress(c, e)) && Joint(f)
    ensures f.bus.mode.Distress? && f.bus.incident.active && f.tracker.phase.Broadcasting? && f.tracker.event == e
  {
    var armedAt := 1 + Micros(c.exitGrace);
    var f0 := Started(false, 1);
    var c1, c2 := Poll(armedAt, false, 0), Notify(Some(e), armedAt, armedAt + Micros(c.initialDelay), 0);
    var f1 := Step(c, f0, c1).0;
    assert f1.bus.mode.Armed?;
    f := Step(c, f1, c2).0;
    assert f.bus.mode.Distress?;
    RunsKeepJoint(c, false, 1, ToDistress(c, e));
    hide Step;
    hide Joint;
    OneMore(c, f0, [], c1);
    OneMore(c, f0, [c1], c2);
    assert [] + [c1] == [c1] && [c1] + [c2] == ToDistress(c, e);
  }

  /** That situation does occur. */
  lemma ArmedWithIncidentReachable(c: Config, e: Event) returns (cmds: seq<Command>)
    ensures ArmedWithIncident(After(c, Started(false, 1), cmds))
  {
    var f := DistressReachable(c, e);
    var force := ForceEmpty(true, false, 0, 0);
    OneMore(c, Started(false, 1), ToDistress(c, e), force);
    ArmedWithIncidentExactly(c, f, force);
    hide Step;
    cmds := ToDistress(c, e) + [force];
  }

  /** So does the first of the two stale broadcasts: an alarm cleared between two
      notification iterations, and better evidence taken by the next one. */
  lemma StaleEvidenceReachable(c: Config, presence: Event, beacon: Event)
    returns (cmds: seq<Command>, cmd: Command)
    requires presence.trigger.PresenceDetected? && BetterTrigger(presence, beacon)
    ensures StaleBroadcast(c, After(c, Started(false, 1), cmds), cmd)
    ensures After(c, Started(false, 1), cmds).bus.mode.Armed?
  {
    var f := DistressReachable(c, presence);
    OneMore(c, Started(false, 1), ToDistress(c, presence), Clear);
    cmds := ToDistress(c, presence) + [Clear];
    cmd := Notify(Some(beacon), 0, 0, 0);
    assert Step(c, f, Clear).0.bus.mode.Armed?;
    hide ToDistress;
    hide After;
  }
}
