/** The alarm protocol of main/bus_state.c and main/notifications.c on values.

    One command is one iteration of the ignition poll loop, one iteration of the
    notification loop, or one call of the command interface; `Step` gives the new
    state and what the firmware sends. The classes in AlarmTasks.dfy update the same
    state in place and are proved against these functions. */
module Alarm {
  import opened Basics

  /** The Kconfig values the protocol depends on, in seconds. */
  datatype Config = Config(exitGrace: nat, initialDelay: nat, repeatInterval: nat)

  predicate ValidConfig(c: Config) { 10 <= c.repeatInterval }

  datatype Mode =
    | Boot | Active | ExitGrace | Armed | Pending | Distress | Acked | Disarmed | Fault

  /** The four modes in which the bus counts as armed. */
  predicate IsArmed(m: Mode) {
    match m
    case Armed => true
    case Pending => true
    case Distress => true
    case Acked => true
    case _ => false
  }

  /** The three modes of a running incident. */
  predicate InIncident(m: Mode) {
    match m
    case Pending => true
    case Distress => true
    case Acked => true
    case _ => false
  }

  datatype Trigger = BeaconNear | Co2Rise | PresenceDetected

  datatype Event = Event(trigger: Trigger, beacon: string, co2Delta: int, at: int)

  /** The ignition front end: the override layer and the last poll's values. */
  datatype Front = Front(
    overriding: bool, overrideValue: bool,
    lastRaw: bool, prevEffective: bool,
    ignition: bool)

  /** The distress incident. `id` is None for the empty string, otherwise the wall-clock
      second the id is formatted from. */
  datatype Incident = Incident(active: bool, acknowledged: bool, id: Option<nat>)

  const NO_INCIDENT := Incident(false, false, None)

  /** The file-scope variables of bus_state.c. */
  datatype Bus = Bus(
    mode: Mode,
    front: Front,
    incident: Incident,
    graceStarted: int,
    generation: nat, baseline: nat,
    busEmpty: bool)

  datatype Phase = Idle | Triggered | Broadcasting

  /** The notification tracker of notifications.c. */
  datatype Tracker = Tracker(phase: Phase, triggerTime: int, lastSend: int, event: Event)

  datatype Firmware = Firmware(bus: Bus, tracker: Tracker)

  datatype Notice = IgnitionOn | IgnitionOff | ArmedNotice | AckNotice | ClearNotice | DisarmNotice

  /** What leaves the firmware: a retained distress message carrying the incident id,
      an empty retained distress message, an event, or the arm-time beacon scan. */
  datatype Output =
    | Published(id: Option<nat>, event: Event)
    | Cleared
    | Announced(notice: Notice)
    | NearScan

  datatype DisarmResult = Ok | Already | RejectPending | RejectUnacknowledged | RejectState

  datatype Command =
    | Poll(now: int, raw: bool, co2: nat)
    | Notify(arrived: Option<Event>, receivedAt: int, now: int, wall: nat)
    | Ack
    | Clear
    | Disarm
    | ForceEmpty(empty: bool, raw: bool, now: int, co2: nat)
    | Reconnect
    | SetBaseline(co2: nat)

  /** State after the initialisation in bus_state_task. */
  function Started(raw: bool, now: int): Firmware {
    Firmware(
      Bus(if raw then Active else ExitGrace, Front(false, false, raw, raw, raw), NO_INCIDENT,
          if raw then 0 else now, 0, 0, false),
      Tracker(Idle, 0, 0, Event(BeaconNear, "", 0, 0)))
  }

  // ---- bus_state.c ----

  function EnterState(b: Bus, m: Mode): Bus {
    if b.mode == m then b
    else match m
      case Active => b.(mode := m, incident := NO_INCIDENT, busEmpty := false)
      case Disarmed => b.(mode := m, incident := NO_INCIDENT, busEmpty := false)
      case Armed => b.(mode := m, busEmpty := true)
      case Pending => b.(mode := m, busEmpty := true)
      case Distress => b.(mode := m, busEmpty := true)
      case Acked => b.(mode := m, busEmpty := true)
      case _ => b.(mode := m)
  }

  /** What a transition sends; nothing when the mode does not change. */
  function EnterSends(from: Mode, m: Mode): seq<Output> {
    if from == m then []
    else match m
      case Active => [Cleared, Announced(IgnitionOn)]
      case Disarmed => [Cleared]
      case Armed => [Announced(ArmedNotice), NearScan]
      case ExitGrace => [Announced(IgnitionOff)]
      case _ => []
  }

  function EnterArmed(b: Bus, co2: nat): Bus {
    EnterState(b.(generation := b.generation + 1, baseline := co2), Armed)
  }

  /** The value the poll loop acts on: the override while the source still shows the
      value it had when last polled, the source itself otherwise. */
  function Effective(b: Bus, raw: bool): bool {
    if b.front.overriding && raw == b.front.lastRaw then b.front.overrideValue else raw
  }

  /** Act on an effective ignition value: a transition only where it changed. */
  function Drive(b: Bus, effective: bool, now: int): Bus {
    var b1 := b.(front := b.front.(ignition := effective, prevEffective := effective));
    if effective == b.front.prevEffective then b1
    else if effective then EnterState(b1, Active)
    else EnterState(b1.(graceStarted := now), ExitGrace)
  }

  function DriveSends(b: Bus, effective: bool): seq<Output> {
    if effective == b.front.prevEffective then []
    else if effective then EnterSends(b.mode, Active)
    else EnterSends(b.mode, ExitGrace)
  }

  /** First part of a poll: apply the source's value. */
  function TakeSample(b: Bus, now: int, raw: bool): Bus {
    var front := b.front.(overriding := b.front.overriding && raw == b.front.lastRaw, lastRaw := raw);
    Drive(b.(front := front), Effective(b, raw), now)
  }

  predicate GraceOver(c: Config, b: Bus, now: int) {
    b.mode.ExitGrace? && b.graceStarted > 0 && now - b.graceStarted >= Micros(c.exitGrace)
  }

  function PollBus(c: Config, b: Bus, now: int, raw: bool, co2: nat): Bus {
    var b1 := TakeSample(b, now, raw);
    if GraceOver(c, b1, now) then EnterArmed(b1, co2) else b1
  }

  function PollSends(c: Config, b: Bus, now: int, raw: bool): seq<Output> {
    DriveSends(b, Effective(b, raw)) +
    if GraceOver(c, TakeSample(b, now, raw), now) then EnterSends(ExitGrace, Armed) else []
  }

  function MarkPending(b: Bus): (Bus, bool) {
    if !b.mode.Armed? || b.front.ignition then (b, false)
    else (b.(mode := Pending, busEmpty := true), true)
  }

  function MarkDistress(b: Bus, wall: nat): (Bus, bool) {
    if !b.mode.Pending? || b.front.ignition then (b, false)
    else
      var id := if b.incident.id.None? then Some(wall) else b.incident.id;
      (b.(mode := Distress, incident := Incident(true, false, id)), true)
  }

  function ClearBus(b: Bus): Bus {
    var b1 := b.(incident := NO_INCIDENT);
    if InIncident(b.mode) then
      if b.front.ignition then EnterState(b1, Active) else EnterState(b1, Armed)
    else b1
  }

  function ClearSends(b: Bus): seq<Output> {
    [Cleared] +
    (if InIncident(b.mode) then
       if b.front.ignition then EnterSends(b.mode, Active) else EnterSends(b.mode, Armed)
     else []) +
    [Announced(ClearNotice)]
  }

  predicate Disarmable(m: Mode) {
    match m
    case ExitGrace => true
    case Armed => true
    case Acked => true
    case Active => true
    case _ => false
  }

  function DisarmVerdict(b: Bus): DisarmResult {
    if b.mode.Disarmed? || b.front.ignition then Already
    else if b.mode.Pending? then RejectPending
    else if b.mode.Distress? || (b.incident.active && !b.incident.acknowledged) then RejectUnacknowledged
    else if !Disarmable(b.mode) then RejectState
    else Ok
  }

  function DisarmBus(b: Bus): Bus {
    if DisarmVerdict(b).Ok? then EnterState(b, Disarmed) else b
  }

  function DisarmSends(b: Bus): seq<Output> {
    if DisarmVerdict(b).Ok? then [Cleared, Announced(DisarmNotice)] else []
  }

  function ForceEmptyBus(c: Config, b: Bus, empty: bool, raw: bool, now: int, co2: nat): Bus {
    var b1 := b.(front := Front(true, !empty, raw, !empty, !empty),
                 graceStarted := if empty then now - Micros(c.exitGrace) else b.graceStarted);
    if empty then EnterArmed(b1, co2) else EnterState(b1, Active)
  }

  function ForceEmptySends(b: Bus, empty: bool): seq<Output> {
    EnterSends(b.mode, if empty then Armed else Active)
  }

  // ---- notifications.c ----

  predicate BetterIdentity(current: Event, candidate: Event) {
    !current.trigger.BeaconNear? && candidate.trigger.BeaconNear? && candidate.beacon != ""
  }

  predicate BetterTrigger(current: Event, candidate: Event) {
    BetterIdentity(current, candidate) ||
    (current.trigger.PresenceDetected? && candidate.trigger.Co2Rise?)
  }

  /** First half of a notification iteration: an event taken from the queue. */
  function Receive(f: Firmware, e: Event, at: int): (Firmware, seq<Output>) {
    if f.tracker.phase.Idle? && IsArmed(f.bus.mode) then
      var (b, marked) := MarkPending(f.bus);
      (Firmware(b, Tracker(if marked then Triggered else Idle, at, 0, e)), [])
    else if !f.tracker.phase.Idle? && IsArmed(f.bus.mode) && BetterTrigger(f.tracker.event, e) then
      (f.(tracker := f.tracker.(event := e)),
       if f.tracker.phase.Broadcasting? && !f.bus.incident.acknowledged then [Published(f.bus.incident.id, e)] else [])
    else (f, [])
  }

  /** A tracker whose incident is gone goes idle, but only in these three modes. */
  function Settle(f: Firmware): Firmware {
    if (f.bus.mode.Active? || f.bus.mode.Armed? || f.bus.mode.Disarmed?) && !f.bus.incident.active
    then f.(tracker := f.tracker.(phase := Idle))
    else f
  }

  /** Second half: the delay before the first broadcast and the repeats. */
  function Advance(c: Config, f: Firmware, now: int, wall: nat): (Firmware, seq<Output>) {
    if f.bus.incident.acknowledged then (f, [])
    else match f.tracker.phase
      case Idle => (f, [])
      case Triggered =>
        if Elapsed(f.tracker.triggerTime, now) < c.initialDelay then (f, [])
        else
          var (b, marked) := MarkDistress(f.bus, wall);
          if !marked then (f.(tracker := f.tracker.(phase := Idle)), [])
          else
            (Firmware(b, f.tracker.(phase := Broadcasting, lastSend := now)),
             [Published(b.incident.id, f.tracker.event)])
      case Broadcasting =>
        if Elapsed(f.tracker.lastSend, now) < c.repeatInterval then (f, [])
        else (f.(tracker := f.tracker.(lastSend := now)), [Published(f.bus.incident.id, f.tracker.event)])
  }

  /** Whole seconds from one timer reading to a later one: C division truncates toward zero. */
  function Elapsed(since: int, now: int): int {
    if now >= since then (now - since) / 1_000_000 else -((since - now) / 1_000_000)
  }

  function NotifyStep(c: Config, f: Firmware, arrived: Option<Event>, at: int, now: int, wall: nat)
    : (Firmware, seq<Output>)
  {
    var (f1, out1) := if arrived.Some? then Receive(f, arrived.value, at) else (f, []);
    var (f2, out2) := Advance(c, Settle(f1), now, wall);
    (f2, out1 + out2)
  }

  function ClearStep(f: Firmware): (Firmware, seq<Output>) {
    (f.(bus := ClearBus(f.bus)), ClearSends(f.bus))
  }

  /** Ack in the pending window goes through notification_handle_ack, which clears. */
  function AckStep(f: Firmware): (Firmware, seq<Output>) {
    if f.bus.mode.Pending? then
      var f1 := f.(tracker := f.tracker.(phase := Idle, lastSend := 0));
      if f.tracker.phase.Triggered? then ClearStep(f1) else (f1, [])
    else if f.bus.incident.active then
      (f.(bus := f.bus.(incident := f.bus.incident.(acknowledged := true), mode := Acked)), [Announced(AckNotice)])
    else (f, [])
  }

  /** MQTT reconnect: republish a live incident, otherwise clear the retained message. */
  function ReconnectSends(f: Firmware): seq<Output> {
    if !f.bus.incident.active then [Cleared]
    else if f.tracker.phase.Idle? || f.bus.incident.acknowledged then []
    else [Published(f.bus.incident.id, f.tracker.event)]
  }

  function Step(c: Config, f: Firmware, cmd: Command): (Firmware, seq<Output>) {
    match cmd
    case Poll(now, raw, co2) => (f.(bus := PollBus(c, f.bus, now, raw, co2)), PollSends(c, f.bus, now, raw))
    case Notify(arrived, at, now, wall) => NotifyStep(c, f, arrived, at, now, wall)
    case Ack => AckStep(f)
    case Clear => ClearStep(f)
    case Disarm => (f.(bus := DisarmBus(f.bus)), DisarmSends(f.bus))
    case ForceEmpty(empty, raw, now, co2) =>
      (f.(bus := ForceEmptyBus(c, f.bus, empty, raw, now, co2)), ForceEmptySends(f.bus, empty))
    case Reconnect => (f, ReconnectSends(f))
    case SetBaseline(co2) => (f.(bus := f.bus.(baseline := co2)), [])
  }

  // ---- runs ----

  /** State after a list of commands: the tasks may be interleaved in any order. */
  function After(c: Config, f: Firmware, cmds: seq<Command>): Firmware {
    if cmds == [] then f
    else Step(c, After(c, f, cmds[..|cmds| - 1]), cmds[|cmds| - 1]).0
  }

  /** Everything sent during the run, in order. */
  function Sent(c: Config, f: Firmware, cmds: seq<Command>): seq<Output> {
    if cmds == [] then []
    else Sent(c, f, cmds[..|cmds| - 1]) +
         Step(c, After(c, f, cmds[..|cmds| - 1]), cmds[|cmds| - 1]).1
  }
}
