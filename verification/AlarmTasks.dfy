/** bus_state.c and notifications.c as they run: file-scope variables updated in place.
    Every method is proved to compute the step function of Alarm. */
module AlarmTasks {
  import opened Basics
  import Alarm
  import opened AlarmTypes = Alarm

  /** The variables of bus_state.c. `outbox` collects what is handed to the MQTT client. */
  class BusState {
    var state: Mode
    var ignitionOn: bool
    var overrideActive: bool
    var overrideValue: bool
    var lastRaw: bool
    var prevEffective: bool
    var distressActive: bool
    var distressAcknowledged: bool
    var exitGraceStarted: int
    var armedGeneration: nat
    var co2Baseline: nat
    var distressId: Option<nat>
    var busEmpty: bool
    var outbox: seq<Output>

    function View(): Bus
      reads this
    {
      Bus(state, Front(overrideActive, overrideValue, lastRaw, prevEffective, ignitionOn),
          Incident(distressActive, distressAcknowledged, distressId),
          exitGraceStarted, armedGeneration, co2Baseline, busEmpty)
    }

    /** The initialisation in bus_state_task. */
    constructor (raw: bool, now: int)
      ensures View() == Started(raw, now).bus && outbox == []
    {
      overrideActive, overrideValue := false, false;
      lastRaw, prevEffective, ignitionOn := raw, raw, raw;
      distressActive, distressAcknowledged := false, false;
      exitGraceStarted, armedGeneration, co2Baseline := 0, 0, 0;
      distressId, busEmpty, outbox := None, false, [];
      if raw {
        state := Active;
      } else {
        state := ExitGrace;
        exitGraceStarted := now;
      }
    }

    method EnterState(m: Mode)
      modifies this
      ensures View() == Alarm.EnterState(old(View()), m)
      ensures outbox == old(outbox) + EnterSends(old(state), m)
    {
      if state == m {
        return;
      }
      state := m;
      match m {
        case Active =>
          CloseIncident();
          outbox := outbox + [Cleared, Announced(IgnitionOn)];
        case Disarmed =>
          CloseIncident();
          outbox := outbox + [Cleared];
        case Armed =>
          busEmpty := true;
          outbox := outbox + [Announced(ArmedNotice), NearScan];
        case Pending => busEmpty := true;
        case Distress => busEmpty := true;
        case Acked => busEmpty := true;
        case ExitGrace => outbox := outbox + [Announced(IgnitionOff)];
        case _ =>
      }
    }

    method CloseIncident()
      modifies this
      ensures View() == old(View()).(incident := NO_INCIDENT, busEmpty := false)
      ensures outbox == old(outbox)
    {
      distressActive := false;
      distressAcknowledged := false;
      distressId := None;
      busEmpty := false;
    }

    /** `co2` is the fresh reading, or 0 when there is none. */
    method EnterArmed(co2: nat)
      modifies this
      ensures View() == Alarm.EnterArmed(old(View()), co2)
      ensures outbox == old(outbox) + EnterSends(old(state), Armed)
    {
      armedGeneration := armedGeneration + 1;
      co2Baseline := co2;
      EnterState(Armed);
    }

    method MarkDistressPending() returns (ok: bool)
      modifies this
      ensures (View(), ok) == MarkPending(old(View())) && outbox == old(outbox)
    {
      if state != Armed || ignitionOn {
        return false;
      }
      state := Pending;
      busEmpty := true;
      ok := true;
    }

    method MarkDistressActive(wall: nat) returns (ok: bool)
      modifies this
      ensures (View(), ok) == MarkDistress(old(View()), wall) && outbox == old(outbox)
    {
      if state != Pending || ignitionOn {
        return false;
      }
      state := Distress;
      distressActive := true;
      distressAcknowledged := false;
      if distressId == None {
        distressId := Some(wall);
      }
      ok := true;
    }

    method ClearDistress()
      modifies this
      ensures View() == ClearBus(old(View()))
      ensures outbox == old(outbox) + ClearSends(old(View()))
    {
      hide Alarm.EnterState;
      hide Alarm.EnterSends;
      var ignition := ignitionOn;
      var shouldTransition := state == Pending || state == Distress || state == Acked;
      distressActive := false;
      distressAcknowledged := false;
      distressId := None;
      outbox := outbox + [Cleared];
      if shouldTransition {
        if ignition {
          EnterState(Active);
        } else {
          EnterState(Armed);
        }
      }
      outbox := outbox + [Announced(ClearNotice)];
    }

    method Disarm() returns (result: DisarmResult)
      modifies this
      ensures View() == DisarmBus(old(View())) && result == DisarmVerdict(old(View()))
      ensures outbox == old(outbox) + DisarmSends(old(View()))
    {
      if state == Disarmed || ignitionOn {
        return Already;
      }
      if state == Pending {
        return RejectPending;
      }
      if state == Distress || (distressActive && !distressAcknowledged) {
        return RejectUnacknowledged;
      }
      if !Disarmable(state) {
        return RejectState;
      }
      state := Disarmed;
      CloseIncident();
      outbox := outbox + [Cleared, Announced(DisarmNotice)];
      result := Ok;
    }

    method ForceEmpty(c: Config, empty: bool, rawNow: bool, now: int, co2: nat)
      modifies this
      ensures View() == ForceEmptyBus(c, old(View()), empty, rawNow, now, co2)
      ensures outbox == old(outbox) + ForceEmptySends(old(View()), empty)
    {
      hide Alarm.EnterState;
      hide Alarm.EnterArmed;
      overrideActive := true;
      overrideValue := !empty;
      lastRaw := rawNow;
      prevEffective := !empty;
      ignitionOn := !empty;
      if empty {
        exitGraceStarted := now - Micros(c.exitGrace);
        EnterArmed(co2);
      } else {
        EnterState(Active);
      }
    }

    /** The override layer and the ignition edge of a poll iteration. */
    method SampleIgnition(now: int, raw: bool)
      modifies this
      ensures View() == TakeSample(old(View()), now, raw)
      ensures outbox == old(outbox) + DriveSends(old(View()), Effective(old(View()), raw))
    {
      hide Alarm.Drive;
      var effective: bool;
      if overrideActive {
        effective := overrideValue;
        if raw != lastRaw {
          overrideActive := false;
          effective := raw;
        }
      } else {
        effective := raw;
      }
      lastRaw := raw;
      ActOn(effective, now);
    }

    /** One iteration of the poll loop. */
    method PollOnce(c: Config, now: int, raw: bool, co2: nat)
      modifies this
      ensures View() == PollBus(c, old(View()), now, raw, co2)
      ensures outbox == old(outbox) + PollSends(c, old(View()), now, raw)
    {
      hide Alarm.TakeSample;
      hide Alarm.Effective;
      hide Alarm.DriveSends;
      hide Alarm.EnterArmed;
      hide Alarm.EnterSends;
      SampleIgnition(now, raw);
      if state == ExitGrace {
        if exitGraceStarted > 0 && now - exitGraceStarted >= Micros(c.exitGrace) {
          EnterArmed(co2);
        }
      }
    }

    /** The ignition edge of a poll iteration. */
    method ActOn(effective: bool, now: int)
      modifies this
      ensures View() == Drive(old(View()), effective, now)
      ensures outbox == old(outbox) + DriveSends(old(View()), effective)
    {
      hide Alarm.EnterSends;
      if effective != prevEffective {
        ignitionOn := effective;
        if effective {
          EnterState(Active);
        } else {
          exitGraceStarted := now;
          EnterState(ExitGrace);
        }
        prevEffective := effective;
      } else {
        ignitionOn := effective;
      }
    }

    /** distress_ack: in the pending window the notification module cancels the alarm. */
    method AckDistress(n: Notifications)
      modifies this, n
      ensures Alarm.Firmware(View(), n.View()) == AckStep(old(Alarm.Firmware(View(), n.View()))).0
      ensures outbox == old(outbox) + AckStep(old(Alarm.Firmware(View(), n.View()))).1
    {
      if state == Pending {
        n.HandleAck(this);
      } else if distressActive {
        distressAcknowledged := true;
        state := Acked;
        outbox := outbox + [Announced(AckNotice)];
      }
    }

    method SetCo2Baseline(co2: nat)
      modifies this
      ensures View() == old(View()).(baseline := co2) && outbox == old(outbox)
    {
      co2Baseline := co2;
    }
  }

  /** The tracker of notifications.c. */
  class Notifications {
    var phase: Phase
    var triggerTime: int
    var lastSend: int
    var event: Event

    function View(): Tracker
      reads this
    {
      Tracker(phase, triggerTime, lastSend, event)
    }

    constructor ()
      ensures View() == Started(false, 0).tracker
    {
      phase, triggerTime, lastSend := Idle, 0, 0;
      event := Event(BeaconNear, "", 0, 0);
    }

    method HandleAck(bus: BusState)
      modifies this, bus
      ensures View() == old(View()).(phase := Idle, lastSend := 0)
      ensures if old(phase).Triggered?
              then && bus.View() == ClearBus(old(bus.View()))
                   && bus.outbox == old(bus.outbox) + ClearSends(old(bus.View()))
              else bus.View() == old(bus.View()) && bus.outbox == old(bus.outbox)
    {
      var hadPending := phase == Triggered;
      phase := Idle;
      lastSend := 0;
      if hadPending {
        bus.ClearDistress();
      }
    }

    /** The event taken from the queue, when there was one. */
    method TakeEvent(bus: BusState, e: Event, at: int)
      modifies this, bus
      ensures Alarm.Firmware(bus.View(), View()) == Receive(old(Alarm.Firmware(bus.View(), View())), e, at).0
      ensures bus.outbox == old(bus.outbox) + Receive(old(Alarm.Firmware(bus.View(), View())), e, at).1
    {
      if phase == Idle && IsArmed(bus.state) {
        phase := Triggered;
        triggerTime := at;
        lastSend := 0;
        event := e;
        var ok := bus.MarkDistressPending();
        if !ok {
          phase := Idle;
        }
      } else if phase != Idle && IsArmed(bus.state) && BetterTrigger(event, e) {
        event := e;
        if phase == Broadcasting && !bus.distressAcknowledged {
          bus.outbox := bus.outbox + [Published(bus.distressId, event)];
        }
      }
    }

    /** One iteration of notification_task. */
    method Iterate(c: Config, bus: BusState, arrived: Option<Event>, at: int, now: int, wall: nat)
      modifies this, bus
      ensures Alarm.Firmware(bus.View(), View())
           == NotifyStep(c, old(Alarm.Firmware(bus.View(), View())), arrived, at, now, wall).0
      ensures bus.outbox
           == old(bus.outbox) + NotifyStep(c, old(Alarm.Firmware(bus.View(), View())), arrived, at, now, wall).1
    {
      if arrived.Some? {
        TakeEvent(bus, arrived.value, at);
      }
      var current := bus.state;
      if (current == Active || current == Armed || current == Disarmed) && phase != Idle && !bus.distressActive {
        phase := Idle;
      }
      if bus.distressAcknowledged {
        return;
      }
      if phase == Triggered {
        if Elapsed(triggerTime, now) >= c.initialDelay {
          var ok := bus.MarkDistressActive(wall);
          if !ok {
            phase := Idle;
            return;
          }
          phase := Broadcasting;
          lastSend := now;
          bus.outbox := bus.outbox + [Published(bus.distressId, event)];
        }
      } else if phase == Broadcasting {
        if Elapsed(lastSend, now) >= c.repeatInterval {
          lastSend := now;
          bus.outbox := bus.outbox + [Published(bus.distressId, event)];
        }
      }
    }

    /** MQTT reconnect. */
    method Reconnected(bus: BusState)
      modifies bus
      ensures bus.View() == old(bus.View())
      ensures bus.outbox == old(bus.outbox) + ReconnectSends(Alarm.Firmware(old(bus.View()), View()))
    {
      if !bus.distressActive {
        bus.outbox := bus.outbox + [Cleared];
      } else if phase != Idle && !bus.distressAcknowledged {
        bus.outbox := bus.outbox + [Published(bus.distressId, event)];
      }
    }
  }
}
