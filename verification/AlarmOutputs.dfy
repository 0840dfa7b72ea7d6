/** What the firmware hands to the MQTT client: the retained distress message and the
    announcements. */
module AlarmOutputs {
  import opened Basics
  import opened Alarm
  import opened AlarmInvariant
  import opened AlarmTiming

  // ---- the retained message ----

  /** The broker's retained distress message after these outputs, starting from r. */
  function Retained(r: Output, out: seq<Output>): Output {
    if out == [] then r
    else
      var last := out[|out| - 1];
      if last.Published? || last.Cleared? then last else Retained(r, out[..|out| - 1])
  }

  /** No incident, no message; a running incident, a message with its id, and until it is
      acknowledged also with the tracker's evidence. */
  predicate Mirrors(f: Firmware, r: Output) {
    if !f.bus.incident.active then r.Cleared?
    else r.Published? && r.id == f.bus.incident.id &&
         (!f.bus.incident.acknowledged ==> r.event == f.tracker.event)
  }

  lemma {:induction false} RetainedAppends(r: Output, x: seq<Output>, y: seq<Output>)
    ensures Retained(r, x + y) == Retained(Retained(r, x), y)
  {
    if y == [] {
      assert x + y == x;
    } else {
      assert (x + y)[..|x + y| - 1] == x + y[..|y| - 1];
      RetainedAppends(r, x, y[..|y| - 1]);
    }
  }

  lemma RetainedOne(r: Output, o: Output)
    ensures Retained(r, []) == r
    ensures Retained(r, [o]) == if o.Published? || o.Cleared? then o else r
  {
    assert [o][..0] == [];
  }

  lemma RetainedTwo(r: Output, o: Output, p: Output)
    ensures Retained(r, [o, p]) == Retained(Retained(r, [o]), [p])
  {
    RetainedAppends(r, [o], [p]);
    assert [o] + [p] == [o, p];
  }

  /** A transition touches the retained message only to clear it. */
  lemma RetainedOfEnter(r: Output, from: Mode, m: Mode)
    ensures Retained(r, EnterSends(from, m)) == if from != m && (m.Active? || m.Disarmed?) then Cleared else r
  {
    RetainedTwo(r, Cleared, Announced(IgnitionOn));
    RetainedTwo(r, Announced(ArmedNotice), NearScan);
    RetainedOne(r, Cleared);
    RetainedOne(Cleared, Announced(IgnitionOn));
    RetainedOne(r, Announced(ArmedNotice));
    RetainedOne(r, NearScan);
    RetainedOne(r, Announced(IgnitionOff));
    hide Retained;
  }

  lemma PollMirrors(c: Config, f: Firmware, now: int, raw: bool, co2: nat, r: Output)
    requires Joint(f) && Mirrors(f, r)
    ensures Mirrors(f.(bus := PollBus(c, f.bus, now, raw, co2)), Retained(r, PollSends(c, f.bus, now, raw)))
  {
    var x := DriveSends(f.bus, Effective(f.bus, raw));
    var y := if GraceOver(c, TakeSample(f.bus, now, raw), now) then EnterSends(ExitGrace, Armed) else [];
    RetainedAppends(r, x, y);
    RetainedOfEnter(r, f.bus.mode, Active);
    RetainedOfEnter(r, f.bus.mode, ExitGrace);
    RetainedOfEnter(Retained(r, x), ExitGrace, Armed);
    RetainedOne(r, NearScan);
    RetainedOne(Retained(r, x), NearScan);
    hide Retained;
    hide EnterSends;
  }

  lemma NotifyMirrors(c: Config, f: Firmware, arrived: Option<Event>, at: int, now: int, wall: nat, r: Output)
    requires Joint(f) && Mirrors(f, r)
    ensures var (g, out) := NotifyStep(c, f, arrived, at, now, wall);
      Mirrors(g, Retained(r, out)) <==> !StaleBroadcast(c, f, Notify(arrived, at, now, wall))
  {
    var (f1, x) := if arrived.Some? then Receive(f, arrived.value, at) else (f, []);
    var (f2, y) := Advance(c, Settle(f1), now, wall);
    RetainedAppends(r, x, y);
    RetainedOne(r, if x != [] then x[0] else NearScan);
    RetainedOne(Retained(r, x), if y != [] then y[0] else NearScan);
    assert |x| <= 1 && |y| <= 1;
    assert x != [] ==> x == [x[0]];
    assert y != [] ==> y == [y[0]];
    hide Retained;
  }

  lemma ClearMirrors(f: Firmware, r: Output)
    ensures Mirrors(ClearStep(f).0, Retained(r, ClearStep(f).1))
  {
    var middle := if InIncident(f.bus.mode) then
                    if f.bus.front.ignition then EnterSends(f.bus.mode, Active) else EnterSends(f.bus.mode, Armed)
                  else [];
    RetainedAppends(r, [Cleared] + middle, [Announced(ClearNotice)]);
    RetainedAppends(r, [Cleared], middle);
    RetainedOne(r, Cleared);
    RetainedOne(Cleared, NearScan);
    RetainedOfEnter(Cleared, f.bus.mode, Active);
    RetainedOfEnter(Cleared, f.bus.mode, Armed);
    RetainedOne(Cleared, Announced(ClearNotice));
    hide Retained;
    hide EnterSends;
  }

  lemma OthersMirror(c: Config, f: Firmware, cmd: Command, r: Output)
    requires Joint(f) && Mirrors(f, r) && !cmd.Poll? && !cmd.Notify?
    ensures Mirrors(Step(c, f, cmd).0, Retained(r, Step(c, f, cmd).1))
  {
    RetainedOne(r, Cleared);
    RetainedOne(r, Published(f.bus.incident.id, f.tracker.event));
    RetainedOne(r, Announced(AckNotice));
    RetainedTwo(r, Cleared, Announced(DisarmNotice));
    RetainedOne(Cleared, Announced(DisarmNotice));
    RetainedOfEnter(r, f.bus.mode, Active);
    RetainedOfEnter(r, f.bus.mode, Armed);
    ClearMirrors(f, r);
    ClearMirrors(f.(tracker := f.tracker.(phase := Idle, lastSend := 0)), r);
    hide Retained;
    hide EnterSends;
    hide ClearStep;
  }

  /** While the client is connected a step leaves the retained message in agreement with the
      incident, unless it is one of the two stale broadcasts. AlarmLink.dfy has the link. */
  lemma StepMirrorsExactly(c: Config, f: Firmware, cmd: Command, r: Output)
    requires Joint(f) && Mirrors(f, r)
    ensures Mirrors(Step(c, f, cmd).0, Retained(r, Step(c, f, cmd).1)) <==> !StaleBroadcast(c, f, cmd)
  {
    match cmd
    case Poll(now, raw, co2) => PollMirrors(c, f, now, raw, co2, r);
    case Notify(arrived, at, now, wall) => NotifyMirrors(c, f, arrived, at, now, wall, r);
    case _ => OthersMirror(c, f, cmd, r);
  }

  ghost predicate NoStaleBroadcast(c: Config, f: Firmware, cmds: seq<Command>) {
    forall k :: 0 <= k < |cmds| ==> !StaleBroadcast(c, After(c, f, cmds[..k]), cmds[k])
  }

  /** Over every run without a stale broadcast and with the client connected throughout, a
      subscriber that only ever sees the last retained message knows whether there is an
      incident, which, and its evidence. */
  lemma {:induction false} RetainedMirrorsIncident(c: Config, raw: bool, now: int, cmds: seq<Command>)
    requires NoStaleBroadcast(c, Started(raw, now), cmds)
    ensures Mirrors(After(c, Started(raw, now), cmds), Retained(Cleared, Sent(c, Started(raw, now), cmds)))
  {
    if cmds != [] {
      var f0 := Started(raw, now);
      var n := |cmds| - 1;
      NoStaleBefore(c, f0, cmds, n);
      RetainedMirrorsIncident(c, raw, now, cmds[..n]);
      RunsKeepJoint(c, raw, now, cmds[..n]);
      var f := After(c, f0, cmds[..n]);
      StepMirrorsExactly(c, f, cmds[n], Retained(Cleared, Sent(c, f0, cmds[..n])));
      RetainedAppends(Cleared, Sent(c, f0, cmds[..n]), Step(c, f, cmds[n]).1);
      hide Step;
      hide Retained;
      hide Mirrors;
      hide StaleBroadcast;
    }
  }

  lemma NoStaleBefore(c: Config, f: Firmware, cmds: seq<Command>, n: nat)
    requires NoStaleBroadcast(c, f, cmds) && |cmds| == n + 1
    ensures NoStaleBroadcast(c, f, cmds[..n]) && !StaleBroadcast(c, After(c, f, cmds[..n]), cmds[n])
  {
    hide StaleBroadcast;
    hide After;
    assert forall k :: 0 <= k < n ==> cmds[..n][..k] == cmds[..k];
  }

  // ---- announcements ----

  predicate Says(out: seq<Output>, notice: Notice) { Announced(notice) in out }

  /** Each announcement is made exactly when what it announces happens, and the arm-time
      beacon scan runs exactly on a change to ARMED. */
  ghost predicate Faithful(f: Firmware, g: Firmware, out: seq<Output>, cmd: Command) {
    && (Says(out, IgnitionOn) <==> g.bus.mode.Active? && !f.bus.mode.Active?)
    && (Says(out, ArmedNotice) <==> g.bus.mode.Armed? && !f.bus.mode.Armed?)
    && (NearScan in out <==> g.bus.mode.Armed? && !f.bus.mode.Armed?)
    && (Says(out, DisarmNotice) <==> g.bus.mode.Disarmed? && !f.bus.mode.Disarmed?)
    && (Says(out, IgnitionOff) ==> cmd.Poll? && f.bus.mode.Active? && !g.bus.front.ignition)
    && (g.bus.mode.ExitGrace? && !f.bus.mode.ExitGrace? ==> Says(out, IgnitionOff))
    && (Says(out, AckNotice) <==> cmd.Ack? && f.bus.incident.active)
    && (Says(out, ClearNotice) <==> cmd.Clear? || (cmd.Ack? && f.bus.mode.Pending?))
  }

  lemma PollFaithful(c: Config, f: Firmware, cmd: Command)
    requires Joint(f) && cmd.Poll?
    ensures Faithful(f, Step(c, f, cmd).0, Step(c, f, cmd).1, cmd)
  {
  }

  lemma NotifyFaithful(c: Config, f: Firmware, cmd: Command)
    requires Joint(f) && cmd.Notify?
    ensures Faithful(f, Step(c, f, cmd).0, Step(c, f, cmd).1, cmd)
  {
  }

  lemma AnnouncementsAreFaithful(c: Config, f: Firmware, cmd: Command)
    requires Joint(f)
    ensures Faithful(f, Step(c, f, cmd).0, Step(c, f, cmd).1, cmd)
  {
    if cmd.Poll? { PollFaithful(c, f, cmd); }
    else if cmd.Notify? { NotifyFaithful(c, f, cmd); }
  }
}
