/** A command whose critical sections nothing interrupts is one coarse step: the two models
    of the alarm agree. */
module LockSteps {
  import opened Basics
  import opened Alarm
  import opened Locks

  /** n further sections of one task, nobody else running. */
  function Alone(c: Config, s: State, act: Act, n: nat): State
    decreases n
  {
    if n == 0 then s else Alone(c, Do(c, s, act), act, n - 1)
  }

  ghost predicate Reaches(c: Config, s: State, act: Act, t: State) {
    exists n: nat :: Alone(c, s, act, n) == t
  }

  lemma Stay(c: Config, s: State, act: Act)
    ensures Reaches(c, s, act, s)
  {
    assert Alone(c, s, act, 0) == s;
  }

  lemma Before(c: Config, s: State, act: Act, t: State)
    requires Reaches(c, Do(c, s, act), act, t)
    ensures Reaches(c, s, act, t)
  {
    var n: nat :| Alone(c, Do(c, s, act), act, n) == t;
    assert Alone(c, s, act, n + 1) == t;
  }

  lemma {:induction false} AloneAdds(c: Config, s: State, act: Act, m: nat, n: nat)
    ensures Alone(c, Alone(c, s, act, m), act, n) == Alone(c, s, act, m + n)
    decreases m
  {
    hide Do;
    if m > 0 {
      AloneAdds(c, Do(c, s, act), act, m - 1, n);
    }
  }

  lemma Then(c: Config, s: State, act: Act, t: State, u: State)
    requires Reaches(c, s, act, t) && Reaches(c, t, act, u)
    ensures Reaches(c, s, act, u)
  {
    var m: nat :| Alone(c, s, act, m) == t;
    var n: nat :| Alone(c, t, act, n) == u;
    AloneAdds(c, s, act, m, n);
  }

  /** The coarse state behind a state of the lock model; the event and the time of the last
      message play no part in it. */
  function Coarse(s: State, lastSend: int, event: Event): Firmware {
    Firmware(s.bus, Tracker(s.phase, s.triggerTime, lastSend, event))
  }

  /** Bus, phase and trigger time are those of the coarse state. */
  predicate Matches(s: State, f: Firmware) {
    s.bus == f.bus && s.phase == f.tracker.phase && s.triggerTime == f.tracker.triggerTime
  }

  // ---- the poll loop ----

  lemma SampleSections(c: Config, s: State, now: int, raw: bool, co2: nat) returns (t: State)
    requires s.poll.PollTop?
    ensures Reaches(c, s, Act.Poll(now, raw, co2), t)
    ensures var overriding := s.bus.front.overriding && raw == s.bus.front.lastRaw;
      var front := s.bus.front.(overriding := overriding, lastRaw := raw);
      t == s.(bus := s.bus.(front := front), poll := Compare(now, Effective(s.bus, raw)))
  {
    var act := Act.Poll(now, raw, co2);
    var s1 := Do(c, s, act);
    var s2 := Do(c, s1, act);
    var s3 := Do(c, s2, act);
    if s2.poll.DropOverride? {
      var s4 := Do(c, s3, act);
      t := s4;
      Stay(c, s4, act);
      Before(c, s3, act, t);
    } else {
      t := s3;
      Stay(c, s3, act);
    }
    Before(c, s2, act, t);
    Before(c, s1, act, t);
    Before(c, s, act, t);
    hide Do;
    hide Reaches;
  }

  lemma FallSections(c: Config, s: State, now: int, raw: bool, co2: nat) returns (t: State)
    requires s.poll == StartGrace(now)
    ensures Reaches(c, s, Act.Poll(now, raw, co2), t)
    ensures var b := EnterState(s.bus.(graceStarted := now), ExitGrace);
      t == s.(bus := b.(front := b.front.(prevEffective := false)), poll := ReadMode(now), log := t.log)
  {
    hide Reaches;
    var act := Act.Poll(now, raw, co2);
    var s1 := Do(c, s, act);
    var s2 := Do(c, s1, act);
    t := Do(c, s2, act);
    Stay(c, t, act);
    Before(c, s2, act, t);
    Before(c, s1, act, t);
    Before(c, s, act, t);
  }

  lemma RiseSections(c: Config, s: State, now: int, raw: bool, co2: nat) returns (t: State)
    requires s.poll == EnterEdge(now, true)
    ensures Reaches(c, s, Act.Poll(now, raw, co2), t)
    ensures var b := EnterState(s.bus, Active);
      t == s.(bus := b.(front := b.front.(prevEffective := true)), poll := ReadMode(now), log := t.log)
  {
    hide Reaches;
    var act := Act.Poll(now, raw, co2);
    var s1 := Do(c, s, act);
    t := Do(c, s1, act);
    Stay(c, t, act);
    Before(c, s1, act, t);
    Before(c, s, act, t);
  }

  lemma EdgeSections(c: Config, s: State, now: int, effective: bool, raw: bool, co2: nat) returns (t: State)
    requires s.poll == Compare(now, effective)
    ensures Reaches(c, s, Act.Poll(now, raw, co2), t)
    ensures t == s.(bus := Drive(s.bus, effective, now), poll := ReadMode(now), log := t.log)
  {
    hide Reaches;
    var act := Act.Poll(now, raw, co2);
    var s1 := Do(c, s, act);
    var s2 := Do(c, s1, act);
    var ignited := s.bus.(front := s.bus.front.(ignition := effective));
    if effective == s.bus.front.prevEffective {
      assert s2 == s.(bus := ignited, poll := ReadMode(now));
      t := s2;
      Stay(c, t, act);
    } else {
      assert s2 == s.(bus := ignited, poll := if effective then EnterEdge(now, true) else StartGrace(now));
      if effective {
        t := RiseSections(c, s2, now, raw, co2);
      } else {
        t := FallSections(c, s2, now, raw, co2);
      }
    }
    Before(c, s1, act, t);
    Before(c, s, act, t);
    hide Do;
  }

  lemma ArmSections(c: Config, s: State, now: int, raw: bool, co2: nat) returns (t: State)
    requires s.poll.PollBump? && s.ble.Free? && !s.bus.mode.Armed?
    ensures Reaches(c, s, Act.Poll(now, raw, co2), t)
    ensures t == s.(bus := EnterArmed(s.bus, co2), poll := PollTop, log := t.log)
  {
    hide Reaches;
    var act := Act.Poll(now, raw, co2);
    var s1 := Do(c, s, act);
    var s2 := Do(c, s1, act);
    t := Do(c, s2, act);
    Stay(c, t, act);
    Before(c, s2, act, t);
    Before(c, s1, act, t);
    Before(c, s, act, t);
  }

  lemma GraceSections(c: Config, s: State, now: int, raw: bool, co2: nat) returns (t: State)
    requires s.poll == ReadMode(now) && s.ble.Free?
    ensures Reaches(c, s, Act.Poll(now, raw, co2), t)
    ensures var bus := if GraceOver(c, s.bus, now) then EnterArmed(s.bus, co2) else s.bus;
      t == s.(bus := bus, poll := PollTop, log := t.log)
  {
    hide Reaches;
    var act := Act.Poll(now, raw, co2);
    var s1 := Do(c, s, act);
    if !s.bus.mode.ExitGrace? {
      t := s1;
      Stay(c, t, act);
    } else {
      var s2 := Do(c, s1, act);
      assert s2 == s.(poll := if GraceOver(c, s.bus, now) then PollBump else PollTop);
      if GraceOver(c, s.bus, now) {
        t := ArmSections(c, s2, now, raw, co2);
      } else {
        t := s2;
        Stay(c, t, act);
      }
      Before(c, s1, act, t);
    }
    Before(c, s, act, t);
    hide Do;
    hide EnterArmed;
  }

  /** An uninterrupted poll iteration is the coarse one. */
  lemma PollAlone(c: Config, s: State, now: int, raw: bool, co2: nat, lastSend: int, event: Event) returns (t: State)
    requires s.poll.PollTop? && s.ble.Free?
    ensures Reaches(c, s, Act.Poll(now, raw, co2), t) && t.poll.PollTop?
    ensures Matches(t, Step(c, Coarse(s, lastSend, event), Alarm.Poll(now, raw, co2)).0)
  {
    var act := Act.Poll(now, raw, co2);
    var s1 := SampleSections(c, s, now, raw, co2);
    var s2 := EdgeSections(c, s1, now, Effective(s.bus, raw), raw, co2);
    t := GraceSections(c, s2, now, raw, co2);
    Then(c, s, act, s1, s2);
    Then(c, s, act, s2, t);
    hide Do;
    hide Reaches;
    hide Drive;
    hide EnterArmed;
    hide Effective;
    hide GraceOver;
  }

  // ---- operator commands ----

  /** A command in progress and its remaining sections. */
  lemma ClearSections(c: Config, s: State, co2: nat, ignition: bool) returns (t: State)
    requires s.command == ClearEnter(ignition) && s.ble.Free?
    ensures Reaches(c, s, Act.Command(co2), t) && t.command.CommandIdle?
    ensures t == s.(bus := EnterState(s.bus, if ignition then Active else Armed), command := CommandIdle, log := t.log)
  {
    var act := Act.Command(co2);
    t := Do(c, s, act);
    if t.command.CommandScan? {
      var u := t;
      t := Do(c, u, act);
      Stay(c, t, act);
      Before(c, u, act, t);
    } else {
      Stay(c, t, act);
    }
    Before(c, s, act, t);
    hide Do;
    hide Reaches;
  }

  lemma ClearAlone(c: Config, s: State, co2: nat, lastSend: int, event: Event) returns (t: State)
    requires s.command.CommandIdle? && s.ble.Free?
    ensures Reaches(c, Do(c, s, Act.Clear), Act.Command(co2), t) && t.command.CommandIdle?
    ensures Matches(t, Step(c, Coarse(s, lastSend, event), Alarm.Clear).0)
  {
    t := Do(c, s, Act.Clear);
    if InIncident(s.bus.mode) {
      t := ClearSections(c, t, co2, s.bus.front.ignition);
    } else {
      Stay(c, t, Act.Command(co2));
    }
    hide Reaches;
  }

  lemma AckAlone(c: Config, s: State, co2: nat, lastSend: int, event: Event) returns (t: State)
    requires s.command.CommandIdle? && s.ble.Free?
    ensures Reaches(c, Do(c, s, Act.Ack), Act.Command(co2), t) && t.command.CommandIdle?
    ensures Matches(t, Step(c, Coarse(s, lastSend, event), Alarm.Ack).0)
  {
    var act := Act.Command(co2);
    var s1 := Do(c, s, Act.Ack);
    t := s1;
    if s.bus.mode.Pending? {
      var s2 := Do(c, s1, act);
      t := s2;
      if s.phase.Triggered? {
        var s3 := Do(c, s2, act);
        t := ClearSections(c, s3, co2, s.bus.front.ignition);
        Before(c, s2, act, t);
      } else {
        Stay(c, t, act);
      }
      Before(c, s1, act, t);
    } else {
      Stay(c, t, act);
    }
    hide Reaches;
  }

  lemma ForceAlone(c: Config, s: State, empty: bool, raw: bool, now: int, co2: nat, lastSend: int, event: Event)
    returns (t: State)
    requires s.command.CommandIdle? && s.ble.Free?
    ensures Reaches(c, Do(c, s, Act.ForceEmpty(empty, raw, now)), Act.Command(co2), t) && t.command.CommandIdle?
    ensures Matches(t, Step(c, Coarse(s, lastSend, event), Alarm.ForceEmpty(empty, raw, now, co2)).0)
  {
    var act := Act.Command(co2);
    var s1 := Do(c, s, Act.ForceEmpty(empty, raw, now));
    t := Do(c, s1, act);
    if empty {
      var s2 := t;
      var s3 := Do(c, s2, act);
      if s3.command.CommandScan? {
        t := Do(c, s3, act);
        Stay(c, t, act);
        Before(c, s3, act, t);
      } else {
        t := s3;
        Stay(c, t, act);
      }
      Before(c, s2, act, t);
    } else {
      Stay(c, t, act);
    }
    Before(c, s1, act, t);
    hide Reaches;
  }

  lemma DisarmAlone(c: Config, s: State, lastSend: int, event: Event)
    requires s.command.CommandIdle?
    ensures Matches(Do(c, s, Act.Disarm), Step(c, Coarse(s, lastSend, event), Alarm.Disarm).0)
  {
  }

  // ---- the notification loop ----

  /** From the look at the mode to the end of the iteration. */
  lemma SettleSections(c: Config, s: State, now: int, wall: nat, lastSend: int, event: Event) returns (t: State)
    requires s.notify.CheckMode?
    ensures Reaches(c, s, Act.Notify(now, wall), t) && t.notify.Waiting?
    ensures Matches(t, Advance(c, Settle(Coarse(s, lastSend, event)), now, wall).0)
  {
    var act := Act.Notify(now, wall);
    var s1 := Do(c, s, act);
    var s2 := if s1.notify.CheckActive? then Do(c, s1, act) else s1;
    assert s2.notify.CheckAcked? && Matches(s2, Settle(Coarse(s, lastSend, event)));
    t := AckedSections(c, s2, now, wall, lastSend, event);
    if s1.notify.CheckActive? { Before(c, s1, act, t); }
    Before(c, s, act, t);
    assert Coarse(s2, lastSend, event) == Settle(Coarse(s, lastSend, event));
    hide Do;
    hide Reaches;
  }

  lemma AckedSections(c: Config, s: State, now: int, wall: nat, lastSend: int, event: Event) returns (t: State)
    requires s.notify.CheckAcked?
    ensures Reaches(c, s, Act.Notify(now, wall), t) && t.notify.Waiting?
    ensures Matches(t, Advance(c, Coarse(s, lastSend, event), now, wall).0)
  {
    var act := Act.Notify(now, wall);
    t := Do(c, s, act);
    if !s.bus.incident.acknowledged {
      var s1 := t;
      t := Do(c, s1, act);
      if t.notify.MarkingActive? {
        var s2 := t;
        t := Do(c, s2, act);
        if t.notify.Publishing? {
          var s3 := t;
          t := Do(c, s3, act);
          Stay(c, t, act);
          Before(c, s3, act, t);
        } else {
          Stay(c, t, act);
        }
        Before(c, s2, act, t);
      } else {
        Stay(c, t, act);
      }
      Before(c, s1, act, t);
    } else {
      Stay(c, t, act);
    }
    Before(c, s, act, t);
    hide Reaches;
  }

  /** An uninterrupted iteration without an event. */
  lemma NotifyAlone(c: Config, s: State, now: int, wall: nat, at: int, lastSend: int, event: Event) returns (t: State)
    requires s.notify.Waiting?
    ensures Reaches(c, s, Act.Notify(now, wall), t) && t.notify.Waiting?
    ensures Matches(t, Step(c, Coarse(s, lastSend, event), Alarm.Notify(None, at, now, wall)).0)
  {
    var act := Act.Notify(now, wall);
    var s1 := Do(c, s, act);
    t := SettleSections(c, s1, now, wall, lastSend, event);
    Before(c, s, act, t);
    hide Reaches;
    hide Advance;
    hide Settle;
  }

  /** And one with an event. */
  lemma ArriveAlone(c: Config, s: State, e: Event, at: int, now: int, wall: nat, lastSend: int, event: Event)
    returns (t: State)
    requires s.notify.Waiting?
    ensures Reaches(c, Do(c, s, Act.Arrive(at)), Act.Notify(now, wall), t) && t.notify.Waiting?
    ensures Matches(t, Step(c, Coarse(s, lastSend, event), Alarm.Notify(Some(e), at, now, wall)).0)
  {
    var act := Act.Notify(now, wall);
    var s1 := Do(c, s, Act.Arrive(at));
    var s2 := Do(c, s1, act);
    var s3 := if s2.notify.MarkingPending? then Do(c, s2, act) else s2;
    var f := Receive(Coarse(s, lastSend, event), e, at).0;
    assert s3.notify.CheckMode? && Coarse(s3, f.tracker.lastSend, f.tracker.event) == f;
    t := SettleSections(c, s3, now, wall, f.tracker.lastSend, f.tracker.event);
    if s2.notify.MarkingPending? { Before(c, s2, act, t); }
    Before(c, s1, act, t);
    hide Do;
    hide Reaches;
    hide Advance;
    hide Settle;
    hide Receive;
  }
}
