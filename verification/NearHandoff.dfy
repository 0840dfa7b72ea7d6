/** No near child is lost between the scanner and the arm-time scan, at the granularity
    of critical sections. */
module NearHandoff {
  import opened Alarm
  import opened Locks

  predicate Happened(log: seq<Mark>, from: nat, m: Mark) {
    exists k :: from <= k < |log| && log[k] == m
  }

  predicate OfferedSince(log: seq<Mark>, from: nat, id: string) {
    exists k :: from <= k < |log| && log[k].Offered? && id in log[k].ids
  }

  /** A transition to ARMED at position i of the history whose arm-time scan is over and
      since which the bus stayed armed. */
  predicate ScanOver(log: seq<Mark>, i: nat)
    requires i < |log|
  {
    log[i].ArmedBy? && Happened(log, i + 1, Scanned(log[i].task)) && !Happened(log, i + 1, LeftArmed)
  }

  /** Every active NEAR beacon has been offered since position i; the one the scanner has
      in hand may still be on its way, inside the scanner's own critical section. */
  predicate AllOffered(s: State, i: nat)
    requires i < |s.log|
  {
    forall id :: id in NearIds(s.beacons) ==> OfferedSince(s.log, i + 1, id) || s.ble == Deciding(id)
  }

  ghost predicate Handoff(s: State) {
    && (forall i :: 0 <= i < |s.log| && s.log[i].ArmedBy? && !Happened(s.log, i + 1, LeftArmed) ==>
          IsArmed(s.bus.mode))
    && (forall i :: 0 <= i < |s.log| && ScanOver(s.log, i) ==> AllOffered(s, i))
  }

  /** What one region does to the table, the scanner and the history. */
  ghost predicate Moves(s: State, t: State) {
    && |s.log| <= |t.log| && t.log[..|s.log|] == s.log
    && (IsArmed(s.bus.mode) && !IsArmed(t.bus.mode) ==> Happened(t.log, |s.log|, LeftArmed))
    && (forall j :: |s.log| <= j < |t.log| && t.log[j].ArmedBy? ==>
          IsArmed(t.bus.mode) && forall k :: j < k < |t.log| ==> !t.log[k].Scanned?)
    && (forall id :: id in NearIds(t.beacons) ==> id in NearIds(s.beacons) || t.ble == Deciding(id))
    && (forall id :: s.ble == Deciding(id) && IsArmed(s.bus.mode) ==>
          t.ble == Deciding(id) || OfferedSince(t.log, |s.log|, id))
    && (forall j :: |s.log| <= j < |t.log| && t.log[j].Scanned? ==>
          forall id :: id in NearIds(t.beacons) ==> OfferedSince(t.log, |s.log|, id))
  }

  /** Moves looks at these fields only. */
  predicate SameFields(u: State, t: State) {
    IsArmed(u.bus.mode) == IsArmed(t.bus.mode) && u.beacons == t.beacons && u.ble == t.ble && u.log == t.log
  }

  lemma SameFieldsMove(s: State, u: State, t: State)
    requires SameFields(u, t) && Moves(s, u)
    ensures Moves(s, t)
  {
  }

  lemma UpdateMoves(s: State, b: Bus, marks: seq<Mark>)
    requires |marks| <= 1
    requires marks == [] || marks[0].AckTaken? || marks[0].ClearTaken? || marks[0].EnteredActive? ||
             marks[0].DisarmTaken? || marks[0].FirstPublish? || (marks[0].ArmedBy? && IsArmed(b.mode))
    ensures Moves(s, Update(s, b, marks))
  {
    var t := Update(s, b, marks);
    if IsArmed(s.bus.mode) && !IsArmed(b.mode) {
      assert t.log[|t.log| - 1] == LeftArmed;
    }
  }

  lemma ScanMoves(s: State, task: Task)
    requires s.ble.Free?
    ensures Moves(s, Scan(s, task))
  {
    var t := Scan(s, task);
    assert t.log[|s.log|] == Offered(NearIds(s.beacons));
    forall id | id in NearIds(t.beacons) ensures OfferedSince(t.log, |s.log|, id) {
    }
  }

  lemma EnterMoves(s: State, m: Mode, task: Task)
    ensures Moves(s, Enter(s, m, task))
  {
    var changed := s.bus.mode != m;
    UpdateMoves(s, EnterState(s.bus, m),
      if changed && m.Armed? then [ArmedBy(task)] else if changed && m.Active? then [EnteredActive] else []);
  }

  lemma PollMoves(s: State, co2: nat)
    ensures Moves(s, PollEffect(s, co2))
  {
    EnterMoves(s, Active, PollTask);
    EnterMoves(s, Armed, PollTask);
    EnterMoves(s, ExitGrace, PollTask);
    if s.ble.Free? { ScanMoves(s, PollTask); }
    hide Enter;
    hide Scan;
  }

  lemma ClearMoves(s: State)
    ensures Moves(s, ClearEffect(s))
  {
    UpdateMoves(s, s.bus.(incident := NO_INCIDENT), [ClearTaken]);
  }

  lemma CommandMoves(s: State, co2: nat)
    ensures Moves(s, CommandEffect(s, co2))
  {
    EnterMoves(s, Active, CommandTask);
    EnterMoves(s, Armed, CommandTask);
    ClearMoves(s);
    if s.ble.Free? { ScanMoves(s, CommandTask); }
    hide Enter;
    hide Scan;
    hide ClearEffect;
  }

  lemma NotifyMoves(s: State, now: int, wall: nat, delay: nat)
    ensures Moves(s, NotifyDo(s, now, wall, delay))
  {
    var t := NotifyDo(s, now, wall, delay);
    if s.notify.Publishing? {
      UpdateMoves(s, s.bus, [FirstPublish(s.bus.incident.id)]);
    } else {
      assert SameFields(s, t);
    }
  }

  lemma BleMoves(s: State, id: string, range: Range, beacons: map<string, Beacon>)
    ensures Moves(s, ReadingSection(s, id, range))
    ensures Moves(s, DecideSection(s))
    ensures Moves(s, RosterSection(s, beacons))
  {
    var t := DecideSection(s);
    if s.ble.Deciding? && IsArmed(s.bus.mode) {
      assert t.log[|s.log|] == Offered({s.ble.id});
    }
  }

  lemma RegionMoves(c: Config, s: State, act: Act)
    ensures Moves(s, Do(c, s, act))
  {
    hide PollEffect;
    hide CommandEffect;
    match act
    case Poll(now, raw, co2) =>
      PollMoves(s, co2);
      SameFieldsMove(s, PollEffect(s, co2), Do(c, s, act));
    case ForceEmpty(_, _, _) =>
    case Ack =>
      UpdateMoves(s, s.bus.(mode := Acked, incident := s.bus.incident.(acknowledged := true)), [AckTaken]);
    case Clear => ClearMoves(s);
    case Disarm =>
      UpdateMoves(s, DisarmBus(s.bus), if DisarmVerdict(s.bus).Ok? then [DisarmTaken] else []);
    case Command(co2) =>
      CommandMoves(s, co2);
      SameFieldsMove(s, CommandEffect(s, co2), Do(c, s, act));
    case Arrive(_) =>
    case Notify(now, wall) => NotifyMoves(s, now, wall, c.initialDelay);
    case Reading(id, range) => BleMoves(s, id, range, s.beacons);
    case Decide => BleMoves(s, "", Far, s.beacons);
    case Roster(beacons) => BleMoves(s, "", Far, beacons);
  }

  /** Marks before position |s.log| survive a move. */
  lemma HappenedBefore(s: State, t: State, i: nat, m: Mark)
    requires Moves(s, t) && i <= |s.log|
    ensures Happened(s.log, i, m) ==> Happened(t.log, i, m)
    ensures Happened(t.log, i, m) && !Happened(s.log, i, m) ==>
            exists k :: |s.log| <= k < |t.log| && t.log[k] == m
  {
    assert forall k :: 0 <= k < |s.log| ==> t.log[..|s.log|][k] == t.log[k];
    if Happened(s.log, i, m) {
      var k :| i <= k < |s.log| && s.log[k] == m;
      assert t.log[k] == m;
    }
    if Happened(t.log, i, m) && !Happened(s.log, i, m) {
      var k :| i <= k < |t.log| && t.log[k] == m;
    }
  }

  lemma OfferedBefore(s: State, t: State, i: nat, id: string)
    requires Moves(s, t) && i <= |s.log|
    ensures OfferedSince(s.log, i, id) || OfferedSince(t.log, |s.log|, id) ==> OfferedSince(t.log, i, id)
  {
    if OfferedSince(s.log, i, id) {
      var k :| i <= k < |s.log| && s.log[k].Offered? && id in s.log[k].ids;
      assert t.log[..|s.log|][k] == t.log[k];
    }
  }

  lemma OldTransition(s: State, t: State, i: nat)
    requires Handoff(s) && Moves(s, t) && i < |s.log|
    requires t.log[i].ArmedBy? && !Happened(t.log, i + 1, LeftArmed)
    ensures IsArmed(t.bus.mode)
    ensures ScanOver(t.log, i) ==> AllOffered(t, i)
  {
    assert t.log[..|s.log|][i] == t.log[i] == s.log[i];
    var scanned := Scanned(s.log[i].task);
    HappenedBefore(s, t, i + 1, LeftArmed);
    HappenedBefore(s, t, i + 1, scanned);
    assert IsArmed(s.bus.mode);
    if ScanOver(t.log, i) {
      forall id | id in NearIds(t.beacons) && t.ble != Deciding(id)
        ensures OfferedSince(t.log, i + 1, id)
      {
        OfferedBefore(s, t, i + 1, id);
        if Happened(s.log, i + 1, scanned) {
          assert AllOffered(s, i);
        } else {
          var k :| |s.log| <= k < |t.log| && t.log[k] == scanned;
        }
      }
    }
  }

  lemma RegionKeepsHandoff(s: State, t: State)
    requires Handoff(s) && Moves(s, t)
    ensures Handoff(t)
  {
    forall i | 0 <= i < |t.log| && t.log[i].ArmedBy? && !Happened(t.log, i + 1, LeftArmed)
      ensures IsArmed(t.bus.mode) && (ScanOver(t.log, i) ==> AllOffered(t, i))
    {
      if i < |s.log| {
        OldTransition(s, t, i);
      } else {
        assert !Happened(t.log, i + 1, Scanned(t.log[i].task));
      }
    }
  }

  /** Every critical section of every task keeps the handoff. */
  lemma DoKeepsHandoff(c: Config, s: State, act: Act)
    requires Handoff(s)
    ensures Handoff(Do(c, s, act))
  {
    RegionMoves(c, s, act);
    RegionKeepsHandoff(s, Do(c, s, act));
    hide *;
  }

  /** After every run, however the regions of the tasks interleave: once the scan of a
      transition to ARMED is over, and while the bus stays armed, every active NEAR
      beacon has been offered to the distress queue since that transition. */
  lemma {:induction false} NoLostNearChild(
      c: Config, raw: bool, now: int, beacons: map<string, Beacon>, acts: seq<Act>)
    ensures Handoff(Run(c, Initial(raw, now, beacons), acts))
  {
    if acts != [] {
      var s := Run(c, Initial(raw, now, beacons), acts[..|acts| - 1]);
      NoLostNearChild(c, raw, now, beacons, acts[..|acts| - 1]);
      DoKeepsHandoff(c, s, acts[|acts| - 1]);
    }
  }

  // ---- no scan is skipped ----

  /** The task has made a transition to ARMED and not scanned since. */
  predicate Owed(log: seq<Mark>, task: Task) {
    exists i :: 0 <= i < |log| && log[i] == ArmedBy(task) && !Happened(log, i + 1, Scanned(task))
  }

  lemma OwedAppend(log: seq<Mark>, m: Mark, task: Task)
    ensures Owed(log + [m], task) <==>
            m == ArmedBy(task) || (m != Scanned(task) && Owed(log, task))
  {
    var t := log + [m];
    assert t[|log|] == m && forall k :: 0 <= k < |log| ==> t[k] == log[k];
    assert !Happened(t, |log| + 1, Scanned(task));
    if i :| 0 <= i < |log| && log[i] == ArmedBy(task) && !Happened(log, i + 1, Scanned(task)) {
      HappenedAppend(log, m, i + 1, Scanned(task));
      assert t[i] == ArmedBy(task);
    }
    if i :| 0 <= i < |t| && t[i] == ArmedBy(task) && !Happened(t, i + 1, Scanned(task)) {
      if i < |log| {
        HappenedAppend(log, m, i + 1, Scanned(task));
        assert log[i] == ArmedBy(task);
      }
    }
  }

  lemma HappenedAppend(log: seq<Mark>, m: Mark, from: nat, x: Mark)
    requires from <= |log|
    ensures Happened(log + [m], from, x) <==> Happened(log, from, x) || m == x
  {
    var t := log + [m];
    assert t[|log|] == m && forall k :: 0 <= k < |log| ==> t[k] == log[k];
    if k :| from <= k < |log| && log[k] == x { assert t[k] == x; }
  }

  /** Marks that have nothing to do with the task's arming leave the debt as it is. */
  predicate Neutral(marks: seq<Mark>, task: Task) {
    forall k :: 0 <= k < |marks| ==> marks[k] != ArmedBy(task) && marks[k] != Scanned(task)
  }

  lemma {:induction false} OwedNeutral(log: seq<Mark>, marks: seq<Mark>, task: Task)
    requires Neutral(marks, task)
    ensures Owed(log + marks, task) == Owed(log, task)
  {
    if marks == [] {
      assert log + marks == log;
    } else {
      var n := |marks| - 1;
      OwedNeutral(log, marks[..n], task);
      OwedAppend(log + marks[..n], marks[n], task);
      assert log + marks[..n] + [marks[n]] == log + marks;
    }
  }

  lemma OwedByUpdate(s: State, b: Bus, marks: seq<Mark>, task: Task)
    requires |marks| <= 1 && (marks == [] || marks[0] != Scanned(task))
    ensures Owed(Update(s, b, marks).log, task) <==> marks == [ArmedBy(task)] || Owed(s.log, task)
  {
    var last := if IsArmed(s.bus.mode) && !IsArmed(b.mode) then [LeftArmed] else [];
    OwedNeutral(s.log + marks, last, task);
    if marks != [] {
      OwedAppend(s.log, marks[0], task);
      assert marks == [marks[0]];
    } else {
      assert s.log + marks == s.log;
    }
    hide Owed;
  }

  lemma OwedByScan(s: State, doer: Task, task: Task)
    ensures Owed(Scan(s, doer).log, task) <==> doer != task && Owed(s.log, task)
  {
    var offered := Offered(NearIds(s.beacons));
    OwedAppend(s.log, offered, task);
    OwedAppend(s.log + [offered], Scanned(doer), task);
    assert s.log + [offered] + [Scanned(doer)] == s.log + [offered, Scanned(doer)];
    hide Owed;
  }

  lemma OwedByEnter(s: State, m: Mode, doer: Task, task: Task)
    ensures Owed(Enter(s, m, doer).log, task) <==> (s.bus.mode != m && m.Armed? && doer == task) || Owed(s.log, task)
  {
    var changed := s.bus.mode != m;
    var marks := if changed && m.Armed? then [ArmedBy(doer)] else if changed && m.Active? then [EnteredActive] else [];
    OwedByUpdate(s, EnterState(s.bus, m), marks, task);
    hide Owed;
    hide Update;
  }

  /** A task owes a scan exactly while its program counter stands before one. */
  ghost predicate ScansOwed(s: State) {
    && (Owed(s.log, PollTask) <==> s.poll.PollScan?)
    && (Owed(s.log, CommandTask) <==> s.command.CommandScan?)
  }

  lemma PollOwes(s: State, now: int, raw: bool, co2: nat, grace: nat)
    requires ScansOwed(s)
    ensures Owed(PollEffect(s, co2).log, PollTask) <==> PollNext(s, now, raw, grace).PollScan?
    ensures Owed(PollEffect(s, co2).log, CommandTask) <==> s.command.CommandScan?
  {
    OwedByEnter(s, Active, PollTask, PollTask);
    OwedByEnter(s, ExitGrace, PollTask, PollTask);
    OwedByEnter(s, Armed, PollTask, PollTask);
    OwedByEnter(s, Active, PollTask, CommandTask);
    OwedByEnter(s, ExitGrace, PollTask, CommandTask);
    OwedByEnter(s, Armed, PollTask, CommandTask);
    OwedByScan(s, PollTask, PollTask);
    OwedByScan(s, PollTask, CommandTask);
    hide Owed;
    hide Enter;
    hide Scan;
  }

  lemma ClearOwes(s: State, task: Task)
    ensures Owed(ClearEffect(s).log, task) == Owed(s.log, task)
  {
    OwedByUpdate(s, s.bus.(incident := NO_INCIDENT), [ClearTaken], task);
  }

  lemma CommandOwes(s: State, co2: nat)
    requires ScansOwed(s)
    ensures Owed(CommandEffect(s, co2).log, CommandTask) <==> CommandNext(s).CommandScan?
    ensures Owed(CommandEffect(s, co2).log, PollTask) <==> s.poll.PollScan?
  {
    OwedByEnter(s, Active, CommandTask, PollTask);
    OwedByEnter(s, Armed, CommandTask, PollTask);
    OwedByEnter(s, Active, CommandTask, CommandTask);
    OwedByEnter(s, Armed, CommandTask, CommandTask);
    OwedByScan(s, CommandTask, PollTask);
    OwedByScan(s, CommandTask, CommandTask);
    ClearOwes(s, PollTask);
    ClearOwes(s, CommandTask);
    hide Owed;
    hide Enter;
    hide Scan;
    hide ClearEffect;
  }

  lemma OperatorOwes(c: Config, s: State, act: Act)
    requires ScansOwed(s) && (act.ForceEmpty? || act.Ack? || act.Clear? || act.Disarm?)
    ensures ScansOwed(Do(c, s, act))
  {
    ClearOwes(s, PollTask);
    ClearOwes(s, CommandTask);
    var disarmed := if DisarmVerdict(s.bus).Ok? then [DisarmTaken] else [];
    OwedByUpdate(s, DisarmBus(s.bus), disarmed, PollTask);
    OwedByUpdate(s, DisarmBus(s.bus), disarmed, CommandTask);
    var acked := s.bus.(mode := Acked, incident := s.bus.incident.(acknowledged := true));
    OwedByUpdate(s, acked, [AckTaken], PollTask);
    OwedByUpdate(s, acked, [AckTaken], CommandTask);
    hide Owed;
    hide Update;
    hide ClearEffect;
  }

  lemma NotifyOwes(s: State, now: int, wall: nat, delay: nat, task: Task)
    ensures Owed(NotifyDo(s, now, wall, delay).log, task) == Owed(s.log, task)
  {
    OwedByUpdate(s, MarkPending(s.bus).0, [], task);
    OwedByUpdate(s, MarkDistress(s.bus, wall).0, [], task);
    OwedByUpdate(s, s.bus, [FirstPublish(s.bus.incident.id)], task);
    hide Owed;
    hide Update;
  }

  lemma DoKeepsScansOwed(c: Config, s: State, act: Act)
    requires ScansOwed(s)
    ensures ScansOwed(Do(c, s, act))
  {
    match act
    case Poll(now, raw, co2) => PollOwes(s, now, raw, co2, c.exitGrace);
      PollLeavesCommand(s, co2);
      hide PollEffect; hide PollNext; hide Owed;
    case Command(co2) => CommandOwes(s, co2);
      CommandLeavesPoll(s, co2);
      hide CommandEffect; hide CommandNext; hide Owed;
    case ForceEmpty(_, _, _) => OperatorOwes(c, s, act);
    case Ack => OperatorOwes(c, s, act);
    case Clear => OperatorOwes(c, s, act);
    case Disarm => OperatorOwes(c, s, act);
    case Notify(now, wall) =>
      NotifyOwes(s, now, wall, c.initialDelay, PollTask);
      NotifyOwes(s, now, wall, c.initialDelay, CommandTask);
      hide Owed;
    case Decide =>
      if s.ble.Deciding? {
        OwedAppend(s.log, Offered({s.ble.id}), PollTask);
        OwedAppend(s.log, Offered({s.ble.id}), CommandTask);
      }
      assert s.log + [] == s.log;
      hide Owed;
    case _ =>
  }

  lemma PollLeavesCommand(s: State, co2: nat)
    ensures PollEffect(s, co2).command == s.command
  {
  }

  lemma CommandLeavesPoll(s: State, co2: nat)
    ensures CommandEffect(s, co2).poll == s.poll
  {
  }

  /** Over every run: a transition to ARMED is followed by the scan of the same task, and
      until then that task does nothing else. */
  lemma {:induction false} NoScanSkipped(c: Config, raw: bool, now: int, beacons: map<string, Beacon>, acts: seq<Act>)
    ensures ScansOwed(Run(c, Initial(raw, now, beacons), acts))
  {
    if acts != [] {
      NoScanSkipped(c, raw, now, beacons, acts[..|acts| - 1]);
      DoKeepsScansOwed(c, Run(c, Initial(raw, now, beacons), acts[..|acts| - 1]), acts[|acts| - 1]);
      hide Do;
      hide ScansOwed;
    }
  }
}
