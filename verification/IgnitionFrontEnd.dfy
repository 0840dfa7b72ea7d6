/** The ignition front end of the poll loop: the override layer and the exit grace. */
module IgnitionFrontEnd {
  import opened Basics
  import opened Alarm
  import opened AlarmInvariant

  /** Source values seen by the poll iterations of a run, oldest first. */
  function Samples(cmds: seq<Command>): (s: seq<bool>)
    ensures |s| <= |cmds|
  {
    if cmds == [] then []
    else Samples(cmds[..|cmds| - 1]) +
         if cmds[|cmds| - 1].Poll? then [cmds[|cmds| - 1].raw] else []
  }

  predicate NoOverride(cmds: seq<Command>) {
    forall k :: 0 <= k < |cmds| ==> !cmds[k].ForceEmpty?
  }

  /** The override decides while every sample equals the value the source had when the
      override was installed; from the first differing sample on, the source decides. */
  function OverrideSpec(installed: bool, value: bool, samples: seq<bool>): bool {
    if Unchanged(installed, samples) then value
    else samples[|samples| - 1]
  }

  predicate Unchanged(installed: bool, samples: seq<bool>) {
    forall k :: 0 <= k < |samples| ==> samples[k] == installed
  }

  lemma OverrideSpecStep(installed: bool, value: bool, s: seq<bool>, x: bool)
    ensures Unchanged(installed, s + [x]) <==> Unchanged(installed, s) && x == installed
    ensures OverrideSpec(installed, value, s + [x]) ==
            if Unchanged(installed, s) && x == installed then value else x
  {
    assert (s + [x])[|s|] == x;
    assert forall k :: 0 <= k < |s| ==> (s + [x])[k] == s[k];
  }

  /** After bus_empty_on or bus_empty_off, over every run without a further override. */
  lemma {:induction false} OverrideLastsUntilEdge(
      c: Config, f: Firmware, empty: bool, raw: bool, now: int, co2: nat, cmds: seq<Command>)
    requires NoOverride(cmds)
    ensures var g := After(c, Step(c, f, ForceEmpty(empty, raw, now, co2)).0, cmds);
      && g.bus.front.ignition == OverrideSpec(raw, !empty, Samples(cmds))
      && g.bus.front.prevEffective == g.bus.front.ignition
      && (g.bus.front.overriding <==> Unchanged(raw, Samples(cmds)))
      && (g.bus.front.overriding ==> g.bus.front.overrideValue == !empty)
      && g.bus.front.lastRaw == if Samples(cmds) == [] then raw else Samples(cmds)[|Samples(cmds)| - 1]
  {
    var f0 := Step(c, f, ForceEmpty(empty, raw, now, co2)).0;
    assert f0.bus.front == Front(true, !empty, raw, !empty, !empty);
    assert OverrideSpec(raw, !empty, []) == !empty && Unchanged(raw, []);
    hide Step;
    hide OverrideSpec;
    hide Unchanged;
    if cmds != [] {
      var before := cmds[..|cmds| - 1];
      OverrideLastsUntilEdge(c, f, empty, raw, now, co2, before);
      var cmd := cmds[|cmds| - 1];
      IgnitionStep(c, After(c, f0, before), cmd);
      if cmd.Poll? {
        OverrideSpecStep(raw, !empty, Samples(before), cmd.raw);
        assert Samples(cmds) == Samples(before) + [cmd.raw];
      } else {
        assert Samples(cmds) == Samples(before);
      }
    }
  }

  /** What one command does to the front-end variables. */
  lemma IgnitionStep(c: Config, f: Firmware, cmd: Command)
    requires !cmd.ForceEmpty?
    ensures var g := Step(c, f, cmd).0.bus;
      if cmd.Poll? then
        && g.front.ignition == g.front.prevEffective == Effective(f.bus, cmd.raw)
        && g.front.overriding == (f.bus.front.overriding && cmd.raw == f.bus.front.lastRaw)
        && g.front.overrideValue == f.bus.front.overrideValue
        && g.front.lastRaw == cmd.raw
      else g.front == f.bus.front
  {
    if cmd.Poll? {
      PollSamples(c, f.bus, cmd.now, cmd.raw, cmd.co2);
    } else if cmd.Notify? {
      NotifyKeepsFrontEnd(c, f, cmd.arrived, cmd.receivedAt, cmd.now, cmd.wall);
    }
  }

  lemma NotifyKeepsFrontEnd(c: Config, f: Firmware, arrived: Option<Event>, at: int, now: int, wall: nat)
    ensures NotifyStep(c, f, arrived, at, now, wall).0.bus.front == f.bus.front
  {
    var f1 := if arrived.Some? then Receive(f, arrived.value, at).0 else f;
    assert f1.bus.front == f.bus.front;
    assert Settle(f1).bus == f1.bus;
  }

  lemma PollSamples(c: Config, b: Bus, now: int, raw: bool, co2: nat)
    ensures var g := PollBus(c, b, now, raw, co2);
      && g.front.ignition == g.front.prevEffective == Effective(b, raw)
      && g.front.overriding == (b.front.overriding && raw == b.front.lastRaw)
      && g.front.overrideValue == b.front.overrideValue
      && g.front.lastRaw == raw
  {
  }

  // ---- the exit grace ----

  /** The effective value is the override while one is in force and the last sample
      otherwise; the grace runs without an override and carries its stamp. */
  ghost predicate FrontEnd(f: Firmware) {
    && f.bus.front.ignition == (if f.bus.front.overriding then f.bus.front.overrideValue else f.bus.front.lastRaw)
    && (f.bus.mode.ExitGrace? ==> !f.bus.front.overriding && 0 < f.bus.graceStarted)
  }

  /** Timer readings are positive; 0 is the code's sentinel for no grace. */
  predicate Timed(cmds: seq<Command>) {
    forall k :: 0 <= k < |cmds| ==> TimedOne(cmds[k])
  }

  predicate TimedOne(cmd: Command) { cmd.Poll? ==> 0 < cmd.now }

  lemma StepKeepsFrontEnd(c: Config, f: Firmware, cmd: Command)
    requires Joint(f) && FrontEnd(f) && TimedOne(cmd)
    ensures FrontEnd(Step(c, f, cmd).0)
  {
    StepKeepsJoint(c, f, cmd);
  }

  /** The last source value the firmware looked at: by a poll or by an override command. */
  function LastSample(raw: bool, cmds: seq<Command>): bool {
    if cmds == [] then raw
    else
      match cmds[|cmds| - 1]
      case Poll(_, sample, _) => sample
      case ForceEmpty(_, sample, _, _) => sample
      case _ => LastSample(raw, cmds[..|cmds| - 1])
  }

  lemma {:induction false} RunsKeepFrontEnd(c: Config, raw: bool, now: int, cmds: seq<Command>)
    requires 0 < now && Timed(cmds)
    ensures var f := After(c, Started(raw, now), cmds);
      FrontEnd(f) && f.bus.front.lastRaw == LastSample(raw, cmds)
  {
    if cmds != [] {
      var n := |cmds| - 1;
      var f := After(c, Started(raw, now), cmds[..n]);
      RunsKeepFrontEnd(c, raw, now, cmds[..n]);
      RunsKeepJoint(c, raw, now, cmds[..n]);
      assert TimedOne(cmds[n]);
      StepKeepsFrontEnd(c, f, cmds[n]);
      if cmds[n].ForceEmpty? {
        assert Step(c, f, cmds[n]).0.bus.front.lastRaw == cmds[n].raw;
      } else {
        IgnitionStep(c, f, cmds[n]);
      }
      hide Step;
      hide FrontEnd;
      hide Joint;
    }
  }

  /** Every poll of the run saw the ignition off and came before the deadline. */
  predicate QuietUntil(cmds: seq<Command>, deadline: int) {
    forall k :: 0 <= k < |cmds| && cmds[k].Poll? ==> !cmds[k].raw && cmds[k].now < deadline
  }

  predicate NoOperator(cmds: seq<Command>) {
    forall k :: 0 <= k < |cmds| ==> !cmds[k].ForceEmpty? && !cmds[k].Disarm?
  }

  /** One command during the exit grace. */
  lemma GraceStep(c: Config, f: Firmware, cmd: Command)
    requires Joint(f) && FrontEnd(f) && f.bus.mode.ExitGrace?
    requires !cmd.ForceEmpty? && !cmd.Disarm?
    ensures var g := Step(c, f, cmd).0;
      && g.bus.mode == (if !cmd.Poll? then ExitGrace
                        else if cmd.raw then Active
                        else if cmd.now >= f.bus.graceStarted + Micros(c.exitGrace) then Armed
                        else ExitGrace)
      && (g.bus.mode.ExitGrace? ==> g.bus.graceStarted == f.bus.graceStarted && FrontEnd(g))
  {
  }

  /** A poll that opens the grace stamps it with its own time; that is the only way in. */
  lemma GraceOpens(c: Config, f: Firmware, cmd: Command)
    requires Joint(f) && !f.bus.mode.ExitGrace? && Step(c, f, cmd).0.bus.mode.ExitGrace?
    ensures cmd.Poll? && !Effective(f.bus, cmd.raw) && f.bus.mode.Active?
    ensures Step(c, f, cmd).0.bus.graceStarted == cmd.now
  {
  }

  lemma {:induction false} GraceLasts(c: Config, f: Firmware, cmds: seq<Command>)
    requires Joint(f) && FrontEnd(f) && f.bus.mode.ExitGrace?
    requires NoOperator(cmds)
    requires QuietUntil(cmds, f.bus.graceStarted + Micros(c.exitGrace))
    ensures var g := After(c, f, cmds);
      Joint(g) && FrontEnd(g) && g.bus.mode.ExitGrace? && g.bus.graceStarted == f.bus.graceStarted
  {
    if cmds != [] {
      var before := cmds[..|cmds| - 1];
      GraceLasts(c, f, before);
      GraceStep(c, After(c, f, before), cmds[|cmds| - 1]);
      StepKeepsJoint(c, After(c, f, before), cmds[|cmds| - 1]);
    }
  }

  /** The run is still in its grace after every one of its prefixes. */
  ghost predicate InGraceThroughout(c: Config, f: Firmware, cmds: seq<Command>) {
    forall k :: 0 <= k <= |cmds| ==> After(c, f, cmds[..k]).bus.mode.ExitGrace?
  }

  lemma {:induction false} GraceThroughoutMeansQuiet(c: Config, f: Firmware, cmds: seq<Command>)
    requires Joint(f) && FrontEnd(f) && f.bus.mode.ExitGrace?
    requires NoOperator(cmds)
    ensures InGraceThroughout(c, f, cmds) <==> QuietUntil(cmds, f.bus.graceStarted + Micros(c.exitGrace))
  {
    hide Step;
    hide Joint;
    hide FrontEnd;
    if cmds == [] {
      assert After(c, f, cmds[..0]) == f;
    } else {
      var n := |cmds| - 1;
      var before := cmds[..n];
      assert cmds[..|cmds|] == cmds;
      GraceThroughoutMeansQuiet(c, f, before);
      assert forall k :: 0 <= k <= n ==> before[..k] == cmds[..k];
      if QuietUntil(before, f.bus.graceStarted + Micros(c.exitGrace)) {
        GraceLasts(c, f, before);
        GraceStep(c, After(c, f, before), cmds[n]);
        assert InGraceThroughout(c, f, cmds) <==> After(c, f, cmds).bus.mode.ExitGrace?;
      } else {
        var k :| 0 <= k <= n && !After(c, f, before[..k]).bus.mode.ExitGrace?;
        assert !After(c, f, cmds[..k]).bus.mode.ExitGrace?;
      }
    }
  }

  /** From a grace opened at `graceStarted`, the bus arms at command `p` exactly when every
      poll before it saw the ignition off within the grace, and `p` is a poll that sees it
      off once the grace is over: never earlier, never later. */
  lemma ArmsExactlyWhenGraceEnds(c: Config, f: Firmware, cmds: seq<Command>, p: Command)
    requires Joint(f) && FrontEnd(f) && f.bus.mode.ExitGrace?
    requires NoOperator(cmds + [p])
    ensures var deadline := f.bus.graceStarted + Micros(c.exitGrace);
      (InGraceThroughout(c, f, cmds) && Step(c, After(c, f, cmds), p).0.bus.mode.Armed?) <==>
      (QuietUntil(cmds, deadline) && p.Poll? && !p.raw && deadline <= p.now)
  {
    assert (cmds + [p])[|cmds|] == p;
    assert NoOperator(cmds) by {
      assert forall k :: 0 <= k < |cmds| ==> (cmds + [p])[k] == cmds[k];
    }
    GraceThroughoutMeansQuiet(c, f, cmds);
    if QuietUntil(cmds, f.bus.graceStarted + Micros(c.exitGrace)) {
      GraceLasts(c, f, cmds);
      GraceStep(c, After(c, f, cmds), p);
    }
  }
}
