/** The alarm protocol at the granularity of its critical sections.

    Every portENTER_CRITICAL region is one step and each task has a program counter
    with its local variables, so any task may run between two regions of another. The
    beacon table is guarded by its own mutex: `ble` says whether the scanner is inside
    its section, between setting a beacon NEAR and deciding whether to raise an event. */
module Locks {
  import opened Basics
  import opened Alarm

  datatype Range = Absent | Far | Near

  datatype Beacon = Beacon(active: bool, range: Range)

  /** Tasks that call enter_state. */
  datatype Task = PollTask | CommandTask

  /** The history: what happened, in order. */
  datatype Mark =
    | ArmedBy(task: Task)        // a state-changing enter_state(ARMED)
    | Scanned(task: Task)        // the arm-time beacon scan of that task is over
    | Offered(ids: set<string>)  // beacon events offered to the distress queue
    | LeftArmed                  // the bus stopped being armed
    | AckTaken
    | ClearTaken
    | EnteredActive
    | DisarmTaken
    | FirstPublish(id: Option<nat>) // the first broadcast of an alarm, with the id it carries

  /** Program counter of bus_state_task. */
  datatype PollPc =
    | PollTop
    | ReadOverride(now: int, raw: bool)
    | DropOverride(now: int, raw: bool)
    | StoreRaw(now: int, raw: bool, effective: bool)
    | Compare(now: int, effective: bool)
    | SetSame(now: int, effective: bool)
    | SetEdge(now: int, effective: bool)
    | StartGrace(now: int)
    | EnterEdge(now: int, effective: bool)
    | Remember(now: int, effective: bool)
    | ReadMode(now: int)
    | ReadGrace(now: int)
    | PollBump
    | PollArm
    | PollScan

  /** Program counter of the MQTT command task. */
  datatype CommandPc =
    | CommandIdle
    | ForceBump
    | ForceArm
    | ForceActive
    | CommandScan
    | AckTracker
    | ClearStart
    | ClearEnter(ignition: bool)

  /** Program counter of notification_task. */
  datatype NotifyPc =
    | Waiting
    | CheckArmed(at: int)
    | MarkingPending
    | CheckMode
    | CheckActive
    | CheckAcked
    | CheckElapsed
    | MarkingActive
    | Publishing

  datatype BlePc = Free | Deciding(id: string)

  datatype State = State(
    bus: Bus, phase: Phase, triggerTime: int,
    poll: PollPc, command: CommandPc, notify: NotifyPc, ble: BlePc,
    beacons: map<string, Beacon>,
    log: seq<Mark>)

  datatype Act =
    | Poll(now: int, raw: bool, co2: nat)
    | ForceEmpty(empty: bool, raw: bool, now: int)
    | Ack
    | Clear
    | Disarm
    | Command(co2: nat)
    | Arrive(at: int)
    | Notify(now: int, wall: nat)
    | Reading(id: string, range: Range)
    | Decide
    | Roster(beacons: map<string, Beacon>)

  function Initial(raw: bool, now: int, beacons: map<string, Beacon>): State {
    State(Started(raw, now).bus, Idle, 0, PollTop, CommandIdle, Waiting, Free, beacons, [])
  }

  /** Install new bus variables and record the marks, with the armed status if it ended. */
  function Update(s: State, b: Bus, marks: seq<Mark>): State {
    s.(bus := b,
       log := s.log + marks + if IsArmed(s.bus.mode) && !IsArmed(b.mode) then [LeftArmed] else [])
  }

  /** The critical section of enter_state, run by `task`. */
  function Enter(s: State, m: Mode, task: Task): State {
    var changed := s.bus.mode != m;
    Update(s, EnterState(s.bus, m),
           if changed && m.Armed? then [ArmedBy(task)]
           else if changed && m.Active? then [EnteredActive]
           else [])
  }

  function NearIds(beacons: map<string, Beacon>): set<string> {
    set id | id in beacons && beacons[id].active && beacons[id].range.Near?
  }

  /** The arm-time scan: one section of the beacon mutex. */
  function Scan(s: State, task: Task): State {
    s.(log := s.log + [Offered(NearIds(s.beacons)), Scanned(task)])
  }

  /** What the poll task's next region does to the shared variables. */
  function PollEffect(s: State, co2: nat): State {
    var b := s.bus;
    match s.poll
    case DropOverride(_, _) => s.(bus := b.(front := b.front.(overriding := false)))
    case StoreRaw(_, r, _) => s.(bus := b.(front := b.front.(lastRaw := r)))
    case SetSame(_, e) => s.(bus := b.(front := b.front.(ignition := e)))
    case SetEdge(_, e) => s.(bus := b.(front := b.front.(ignition := e)))
    case StartGrace(t) => s.(bus := b.(graceStarted := t))
    case EnterEdge(_, e) => if e then Enter(s, Active, PollTask) else Enter(s, ExitGrace, PollTask)
    case Remember(_, e) => s.(bus := b.(front := b.front.(prevEffective := e)))
    case PollBump => s.(bus := b.(generation := b.generation + 1, baseline := co2))
    case PollArm => Enter(s, Armed, PollTask)
    case PollScan => if s.ble.Free? then Scan(s, PollTask) else s
    case _ => s
  }

  /** Where the poll task goes after that region. */
  function PollNext(s: State, now: int, raw: bool, grace: nat): PollPc {
    var b := s.bus;
    match s.poll
    case PollTop => ReadOverride(now, raw)
    case ReadOverride(t, r) =>
      if b.front.overriding && r != b.front.lastRaw then DropOverride(t, r)
      else StoreRaw(t, r, if b.front.overriding then b.front.overrideValue else r)
    case DropOverride(t, r) => StoreRaw(t, r, r)
    case StoreRaw(t, r, e) => Compare(t, e)
    case Compare(t, e) => if e == b.front.prevEffective then SetSame(t, e) else SetEdge(t, e)
    case SetSame(t, _) => ReadMode(t)
    case SetEdge(t, e) => if e then EnterEdge(t, e) else StartGrace(t)
    case StartGrace(t) => EnterEdge(t, false)
    case EnterEdge(t, e) => Remember(t, e)
    case Remember(t, _) => ReadMode(t)
    case ReadMode(t) => if b.mode.ExitGrace? then ReadGrace(t) else PollTop
    case ReadGrace(t) =>
      if b.graceStarted > 0 && t - b.graceStarted >= Micros(grace) then PollBump else PollTop
    case PollBump => PollArm
    case PollArm => if b.mode.Armed? then PollTop else PollScan
    case PollScan => if s.ble.Free? then PollTop else PollScan
  }

  /** What the next region of a command in progress does to the shared variables. */
  function CommandEffect(s: State, co2: nat): State {
    match s.command
    case CommandIdle => s
    case ForceBump => s.(bus := s.bus.(generation := s.bus.generation + 1, baseline := co2))
    case ForceArm => Enter(s, Armed, CommandTask)
    case ForceActive => Enter(s, Active, CommandTask)
    case CommandScan => if s.ble.Free? then Scan(s, CommandTask) else s
    case AckTracker => s.(phase := Idle)
    case ClearStart => ClearEffect(s)
    case ClearEnter(ignition) =>
      if ignition then Enter(s, Active, CommandTask) else Enter(s, Armed, CommandTask)
  }

  function CommandNext(s: State): CommandPc {
    match s.command
    case CommandIdle => CommandIdle
    case ForceBump => ForceArm
    case ForceArm => if s.bus.mode.Armed? then CommandIdle else CommandScan
    case ForceActive => CommandIdle
    case CommandScan => if s.ble.Free? then CommandIdle else CommandScan
    case AckTracker => if s.phase.Triggered? then ClearStart else CommandIdle
    case ClearStart => ClearNext(s)
    case ClearEnter(ignition) => if ignition || s.bus.mode.Armed? then CommandIdle else CommandScan
  }

  /** First region of distress_clear: drop the incident, and decide where to go. */
  function ClearEffect(s: State): State {
    Update(s, s.bus.(incident := NO_INCIDENT), [ClearTaken])
  }

  function ClearNext(s: State): CommandPc {
    if InIncident(s.bus.mode) then ClearEnter(s.bus.front.ignition) else CommandIdle
  }

  function ForceSection(s: State, empty: bool, raw: bool, now: int, grace: nat): State {
    s.(bus := s.bus.(front := Front(true, !empty, raw, !empty, !empty),
                     graceStarted := if empty then now - Micros(grace) else s.bus.graceStarted),
       command := if empty then ForceBump else ForceActive)
  }

  function AckSection(s: State): State {
    if s.bus.mode.Pending? then s.(command := AckTracker)
    else if s.bus.incident.active then
      Update(s, s.bus.(mode := Acked, incident := s.bus.incident.(acknowledged := true)), [AckTaken])
    else s
  }

  /** The next region of a notification iteration. */
  function NotifyDo(s: State, now: int, wall: nat, delay: nat): State {
    match s.notify
    case Waiting => s.(notify := CheckMode)
    case CheckArmed(at) =>
      if s.phase.Idle? && IsArmed(s.bus.mode)
      then s.(phase := Triggered, triggerTime := at, notify := MarkingPending)
      else s.(notify := CheckMode)
    case MarkingPending =>
      var (b, marked) := MarkPending(s.bus);
      Update(s, b, []).(phase := if marked then s.phase else Idle, notify := CheckMode)
    case CheckMode =>
      s.(notify := if s.bus.mode.Active? || s.bus.mode.Armed? || s.bus.mode.Disarmed? then CheckActive
                   else CheckAcked)
    case CheckActive =>
      s.(phase := if s.bus.incident.active then s.phase else Idle, notify := CheckAcked)
    case CheckAcked => s.(notify := if s.bus.incident.acknowledged then Waiting else CheckElapsed)
    case CheckElapsed =>
      s.(notify := if s.phase.Triggered? && Elapsed(s.triggerTime, now) >= delay then MarkingActive
                   else Waiting)
    case MarkingActive =>
      var (b, marked) := MarkDistress(s.bus, wall);
      Update(s, b, []).(phase := if marked then Broadcasting else Idle,
                        notify := if marked then Publishing else Waiting)
    case Publishing => Update(s, s.bus, [FirstPublish(s.bus.incident.id)]).(notify := Waiting)
  }

  /** First half of process_device inside the beacon mutex: a reading that leaves the
      beacon NEAR, FAR or ABSENT. Only a change to NEAR has a second half. */
  function ReadingSection(s: State, id: string, range: Range): State {
    if s.ble.Free? && id in s.beacons && s.beacons[id].active then
      s.(beacons := s.beacons[id := s.beacons[id].(range := range)],
         ble := if range.Near? && !s.beacons[id].range.Near? then Deciding(id) else Free)
    else s
  }

  /** Second half: the armed check and, if armed, the event. */
  function DecideSection(s: State): State {
    match s.ble
    case Free => s
    case Deciding(id) =>
      s.(ble := Free, log := s.log + if IsArmed(s.bus.mode) then [Offered({id})] else [])
  }

  /** Roster commands and the absence check: sections of the beacon mutex that may change
      the table in any way but never turn a beacon into an active NEAR one. */
  function RosterSection(s: State, beacons: map<string, Beacon>): State {
    if s.ble.Free? && NearIds(beacons) <= NearIds(s.beacons) then s.(beacons := beacons) else s
  }

  /** One step. An act that is not enabled leaves the state as it is. */
  function Do(c: Config, s: State, act: Act): State {
    match act
    case Poll(now, raw, co2) => PollEffect(s, co2).(poll := PollNext(s, now, raw, c.exitGrace))
    case ForceEmpty(empty, raw, now) =>
      if s.command.CommandIdle? then ForceSection(s, empty, raw, now, c.exitGrace) else s
    case Ack => if s.command.CommandIdle? then AckSection(s) else s
    case Clear => if s.command.CommandIdle? then ClearEffect(s).(command := ClearNext(s)) else s
    case Disarm =>
      if s.command.CommandIdle? then
        Update(s, DisarmBus(s.bus), if DisarmVerdict(s.bus).Ok? then [DisarmTaken] else [])
      else s
    case Command(co2) => CommandEffect(s, co2).(command := CommandNext(s))
    case Arrive(at) => if s.notify.Waiting? then s.(notify := CheckArmed(at)) else s
    case Notify(now, wall) => NotifyDo(s, now, wall, c.initialDelay)
    case Reading(id, range) => ReadingSection(s, id, range)
    case Decide => DecideSection(s)
    case Roster(beacons) => RosterSection(s, beacons)
  }

  function Run(c: Config, s: State, acts: seq<Act>): State {
    if acts == [] then s else Do(c, Run(c, s, acts[..|acts| - 1]), acts[|acts| - 1])
  }

  // ---- the incident ----

  ghost predicate IncidentOk(i: Incident) {
    (i.acknowledged ==> i.active) && (i.active <==> i.id.Some?)
  }

  /** Something that closes or takes over an incident happened after position `from`. */
  predicate Answered(log: seq<Mark>, from: nat)
    requires from <= |log|
  {
    exists k :: from <= k < |log| && Answers(log[k])
  }

  predicate Answers(m: Mark) {
    match m
    case AckTaken => true
    case ClearTaken => true
    case EnteredActive => true
    case _ => false
  }

  predicate Unanswered(s: State) {
    s.bus.incident.active && !s.bus.incident.acknowledged && !s.bus.mode.Disarmed?
  }

  /** What one region does to the incident and the history: the flags stay consistent, a
      running incident keeps its id, and an unanswered one stays so unless it is answered. */
  ghost predicate RegionOk(s: State, t: State) {
    && (IncidentOk(s.bus.incident) ==> IncidentOk(t.bus.incident))
    && (IncidentOk(s.bus.incident) && s.bus.incident.active && t.bus.incident.active ==>
          t.bus.incident.id == s.bus.incident.id)
    && |s.log| <= |t.log| && t.log[..|s.log|] == s.log
    && (Unanswered(s) ==> Unanswered(t) || Answered(t.log, |s.log|))
    && (!s.bus.mode.Distress? && t.bus.mode.Distress? ==> Unanswered(t))
  }

  lemma EnterOk(s: State, m: Mode, task: Task)
    requires m.Active? || m.Armed? || m.ExitGrace?
    ensures RegionOk(s, Enter(s, m, task))
  {
    var t := Enter(s, m, task);
    if m.Active? && s.bus.mode != m { assert Answers(t.log[|s.log|]); }
  }

  /** RegionOk looks at the mode, the incident and the history only. */
  predicate Alike(s: State, t: State) {
    s.bus.mode == t.bus.mode && s.bus.incident == t.bus.incident && s.log == t.log
  }

  lemma AlikeOk(s: State, u: State, t: State)
    requires Alike(u, t) && RegionOk(s, u)
    ensures RegionOk(s, t)
  {
  }

  lemma PollOk(s: State, co2: nat)
    ensures RegionOk(s, PollEffect(s, co2))
  {
    EnterOk(s, Active, PollTask);
    EnterOk(s, Armed, PollTask);
    EnterOk(s, ExitGrace, PollTask);
    hide Enter;
  }

  lemma ClearOk(s: State)
    ensures RegionOk(s, ClearEffect(s))
  {
    assert Answers(ClearEffect(s).log[|s.log|]);
  }

  lemma CommandOk(s: State, co2: nat)
    ensures RegionOk(s, CommandEffect(s, co2))
  {
    EnterOk(s, Active, CommandTask);
    EnterOk(s, Armed, CommandTask);
    ClearOk(s);
    hide Enter;
    hide ClearEffect;
  }

  lemma AckOk(s: State)
    ensures RegionOk(s, AckSection(s))
  {
    var t := AckSection(s);
    if s.bus.incident.active && !s.bus.mode.Pending? { assert Answers(t.log[|s.log|]); }
  }

  lemma NotifyOk(s: State, now: int, wall: nat, delay: nat)
    ensures RegionOk(s, NotifyDo(s, now, wall, delay))
  {
  }

  lemma RegionsOk(c: Config, s: State, act: Act)
    ensures RegionOk(s, Do(c, s, act))
  {
    hide PollEffect;
    hide CommandEffect;
    match act
    case Poll(now, raw, co2) =>
      PollOk(s, co2);
      AlikeOk(s, PollEffect(s, co2), Do(c, s, act));
    case ForceEmpty(_, _, _) =>
    case Ack => AckOk(s);
    case Clear => ClearOk(s);
    case Disarm =>
    case Command(co2) =>
      CommandOk(s, co2);
      AlikeOk(s, CommandEffect(s, co2), Do(c, s, act));
    case Arrive(_) =>
    case Notify(now, wall) => NotifyOk(s, now, wall, c.initialDelay);
    case Reading(_, _) =>
    case Decide =>
    case Roster(_) =>
  }

  /** Whatever runs between the regions of any task. */
  lemma {:induction false} RunsKeepIncident(
      c: Config, raw: bool, now: int, beacons: map<string, Beacon>, acts: seq<Act>)
    ensures IncidentOk(Run(c, Initial(raw, now, beacons), acts).bus.incident)
  {
    if acts != [] {
      RunsKeepIncident(c, raw, now, beacons, acts[..|acts| - 1]);
      RegionsOk(c, Run(c, Initial(raw, now, beacons), acts[..|acts| - 1]), acts[|acts| - 1]);
      hide Do;
    }
  }

  ghost predicate ActiveThroughout(c: Config, s: State, acts: seq<Act>) {
    forall k :: 0 <= k <= |acts| ==> Run(c, s, acts[..k]).bus.incident.active
  }

  /** The incident id never changes while the incident stays active. */
  lemma {:induction false} IdIsConstant(c: Config, s: State, acts: seq<Act>)
    requires IncidentOk(s.bus.incident) && ActiveThroughout(c, s, acts)
    ensures var t := Run(c, s, acts);
      IncidentOk(t.bus.incident) && t.bus.incident.id == s.bus.incident.id
  {
    if acts != [] {
      var before := acts[..|acts| - 1];
      assert acts[..|acts|] == acts;
      assert ActiveThroughout(c, s, before) by {
        forall k | 0 <= k <= |before| ensures Run(c, s, before[..k]).bus.incident.active {
          assert before[..k] == acts[..k];
        }
      }
      IdIsConstant(c, s, before);
      assert before[..|before|] == before;
      RegionsOk(c, Run(c, s, before), acts[|acts| - 1]);
      hide Do;
    }
  }

  // ---- no silent disarm ----

  /** From an active, unacknowledged incident the bus is never disarmed without an ack, a
      clear or an entry to ACTIVE on the way. */
  lemma {:induction false} NoSilentDisarm(c: Config, s: State, acts: seq<Act>)
    requires Unanswered(s)
    ensures var t := Run(c, s, acts);
      && |s.log| <= |t.log| && t.log[..|s.log|] == s.log
      && (Answered(t.log, |s.log|) || Unanswered(t))
      && (t.bus.mode.Disarmed? ==> Answered(t.log, |s.log|))
  {
    if acts != [] {
      var before := acts[..|acts| - 1];
      NoSilentDisarm(c, s, before);
      var u := Run(c, s, before);
      var act := acts[|acts| - 1];
      var t := Do(c, u, act);
      RegionsOk(c, u, act);
      hide Do;
      assert t.log[..|s.log|] == t.log[..|u.log|][..|s.log|];
      if Answered(u.log, |s.log|) {
        var k :| |s.log| <= k < |u.log| && Answers(u.log[k]);
        assert t.log[..|u.log|][k] == t.log[k];
      }
    }
  }

  /** Every region that puts the bus into DISTRESS_ACTIVE starts such an incident. */
  lemma DistressOpensUnanswered(c: Config, s: State, act: Act)
    requires !s.bus.mode.Distress? && Do(c, s, act).bus.mode.Distress?
    ensures Unanswered(Do(c, s, act))
  {
    RegionsOk(c, s, act);
    hide Do;
  }
}
