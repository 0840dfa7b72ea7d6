/** The whole protocol as one table, for every state the firmware can reach: the next mode,
    the incident, and the answer to a disarm. */
module AlarmModes {
  import opened Basics
  import opened Alarm
  import opened AlarmInvariant

  /** What a poll does, its effective value given. */
  function PolledMode(c: Config, f: Firmware, effective: bool, now: int): Mode {
    if effective then Active
    else match f.bus.mode
      case Active => if c.exitGrace == 0 && 0 < now then Armed else ExitGrace
      case ExitGrace =>
        if 0 < f.bus.graceStarted && Micros(c.exitGrace) <= now - f.bus.graceStarted then Armed else ExitGrace
      case m => m
  }

  /** What a notification iteration does. */
  function NotifiedMode(c: Config, f: Firmware, arrived: bool, at: int, now: int): Mode {
    match f.bus.mode
    case Armed =>
      if !arrived || !f.tracker.phase.Idle? then Armed
      else if c.initialDelay <= Elapsed(at, now) then Distress else Pending
    case Pending => if c.initialDelay <= Elapsed(f.tracker.triggerTime, now) then Distress else Pending
    case m => m
  }

  /** The modes from which a disarm is accepted, once any incident is acknowledged. */
  predicate MayDisarm(f: Firmware) {
    (f.bus.mode.ExitGrace? || f.bus.mode.Armed? || f.bus.mode.Acked?) &&
    (f.bus.incident.active ==> f.bus.incident.acknowledged)
  }

  function NextMode(c: Config, f: Firmware, cmd: Command): Mode {
    match cmd
    case Poll(now, raw, _) => PolledMode(c, f, Effective(f.bus, raw), now)
    case Notify(arrived, at, now, _) => NotifiedMode(c, f, arrived.Some?, at, now)
    case Ack => if f.bus.mode.Pending? then Armed else if f.bus.incident.active then Acked else f.bus.mode
    case Clear => if f.bus.mode.Pending? || f.bus.mode.Distress? || f.bus.mode.Acked? then Armed else f.bus.mode
    case Disarm => if MayDisarm(f) then Disarmed else f.bus.mode
    case ForceEmpty(empty, _, _, _) => if empty then Armed else Active
    case _ => f.bus.mode
  }

  lemma PollMode(c: Config, f: Firmware, now: int, raw: bool, co2: nat)
    requires Joint(f)
    ensures PollBus(c, f.bus, now, raw, co2).mode == PolledMode(c, f, Effective(f.bus, raw), now)
  {
  }

  lemma NotifyMode(c: Config, f: Firmware, cmd: Command)
    requires Joint(f) && cmd.Notify?
    ensures Step(c, f, cmd).0.bus.mode == NotifiedMode(c, f, cmd.arrived.Some?, cmd.receivedAt, cmd.now)
  {
    hide Elapsed;
  }

  /** Every step of the protocol follows the table. */
  lemma ModesExactly(c: Config, f: Firmware, cmd: Command)
    requires Joint(f)
    ensures Step(c, f, cmd).0.bus.mode == NextMode(c, f, cmd)
  {
    match cmd
    case Poll(now, raw, co2) => PollMode(c, f, now, raw, co2); hide PollBus; hide PolledMode;
    case Notify(_, _, _, _) => NotifyMode(c, f, cmd); hide NotifiedMode; hide NotifyStep;
    case _ =>
  }

  /** The incident after a step: it opens with the alarm, is acknowledged by an ack, and
      closes by the ignition, a clear, a bus-empty-off or a disarm. */
  function NextIncident(c: Config, f: Firmware, cmd: Command): Incident {
    var same := f.bus.incident;
    match cmd
    case Poll(_, raw, _) => if Effective(f.bus, raw) then NO_INCIDENT else same
    case Notify(_, _, _, wall) =>
      if !f.bus.mode.Distress? && NextMode(c, f, cmd).Distress? then Incident(true, false, Some(wall)) else same
    case Ack => if same.active then same.(acknowledged := true) else same
    case Clear => NO_INCIDENT
    case Disarm => if MayDisarm(f) then NO_INCIDENT else same
    case ForceEmpty(empty, _, _, _) => if empty then same else NO_INCIDENT
    case _ => same
  }

  lemma NotifyIncident(c: Config, f: Firmware, cmd: Command)
    requires Joint(f) && cmd.Notify?
    ensures Step(c, f, cmd).0.bus.incident == NextIncident(c, f, cmd)
  {
    NotifyMode(c, f, cmd);
    hide Elapsed;
  }

  lemma IncidentExactly(c: Config, f: Firmware, cmd: Command)
    requires Joint(f)
    ensures Step(c, f, cmd).0.bus.incident == NextIncident(c, f, cmd)
  {
    if cmd.Notify? { NotifyIncident(c, f, cmd); hide NotifyStep; hide NextMode; }
  }

  /** The answer to a disarm at any moment of any run: each refusal in exactly its situation,
      and never the one for a state that cannot be disarmed. */
  lemma DisarmAnswers(c: Config, raw: bool, now: int, cmds: seq<Command>)
    ensures var f := After(c, Started(raw, now), cmds);
      DisarmVerdict(f.bus) ==
      match f.bus.mode
      case Active => Already
      case Disarmed => Already
      case Pending => RejectPending
      case Distress => RejectUnacknowledged
      case _ => if f.bus.incident.active && !f.bus.incident.acknowledged then RejectUnacknowledged else Ok
  {
    RunsKeepJoint(c, raw, now, cmds);
    hide After;
  }
}
