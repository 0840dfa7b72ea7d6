/** What every interleaving of the coarse alarm commands keeps. */
module AlarmInvariant {
  import opened Alarm

  /** The joint invariant of the bus variables and the notification tracker. */
  ghost predicate Joint(f: Firmware) {
    var b := f.bus;
    && (b.mode.Active? <==> b.front.ignition)
    && (b.front.ignition <==> b.front.prevEffective)
    && (b.mode.Pending? ==> f.tracker.phase.Triggered?)
    && (b.mode.Distress? || b.mode.Acked? ==> b.incident.active)
    && (b.incident.active ==> f.tracker.phase.Broadcasting? && (b.mode.Armed? || b.mode.Distress? || b.mode.Acked?))
    && (b.busEmpty <==> IsArmed(b.mode))
    && (b.incident.acknowledged ==> b.incident.active)
    && (b.incident.active <==> b.incident.id.Some?)
    && !b.mode.Boot? && !b.mode.Fault?
  }

  lemma PollKeepsJoint(c: Config, f: Firmware, now: int, raw: bool, co2: nat)
    requires Joint(f)
    ensures Joint(f.(bus := PollBus(c, f.bus, now, raw, co2)))
  {
    var b := TakeSample(f.bus, now, raw);
    assert Joint(f.(bus := b));
  }

  lemma ReceiveKeepsJoint(f: Firmware, e: Event, at: int)
    requires Joint(f)
    ensures Joint(Receive(f, e, at).0)
  {
  }

  lemma AdvanceKeepsJoint(c: Config, f: Firmware, now: int, wall: nat)
    requires Joint(f)
    ensures Joint(Settle(f)) && Joint(Advance(c, f, now, wall).0)
  {
  }

  lemma ForceEmptyKeepsJoint(c: Config, f: Firmware, empty: bool, raw: bool, now: int, co2: nat)
    requires Joint(f)
    ensures Joint(f.(bus := ForceEmptyBus(c, f.bus, empty, raw, now, co2)))
  {
  }

  lemma ClearAndAckKeepJoint(f: Firmware)
    requires Joint(f)
    ensures Joint(ClearStep(f).0) && Joint(AckStep(f).0)
  {
  }

  lemma StepKeepsJoint(c: Config, f: Firmware, cmd: Command)
    requires Joint(f)
    ensures Joint(Step(c, f, cmd).0)
  {
    match cmd
    case Poll(now, raw, co2) => PollKeepsJoint(c, f, now, raw, co2);
    case Notify(arrived, at, now, wall) =>
      if arrived.Some? { ReceiveKeepsJoint(f, arrived.value, at); }
      var f1 := if arrived.Some? then Receive(f, arrived.value, at).0 else f;
      AdvanceKeepsJoint(c, f1, now, wall);
      AdvanceKeepsJoint(c, Settle(f1), now, wall);
    case Ack => ClearAndAckKeepJoint(f);
    case Clear => ClearAndAckKeepJoint(f);
    case Disarm =>
    case ForceEmpty(empty, raw, now, co2) => ForceEmptyKeepsJoint(c, f, empty, raw, now, co2);
    case Reconnect =>
    case SetBaseline(_) =>
  }

  /** After any list of commands, in any order, from either start. */
  lemma {:induction false} RunsKeepJoint(c: Config, raw: bool, now: int, cmds: seq<Command>)
    ensures Joint(After(c, Started(raw, now), cmds))
  {
    if cmds != [] {
      RunsKeepJoint(c, raw, now, cmds[..|cmds| - 1]);
      StepKeepsJoint(c, After(c, Started(raw, now), cmds[..|cmds| - 1]), cmds[|cmds| - 1]);
    }
  }
}
