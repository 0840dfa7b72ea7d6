/** Spacing and count of emergency sends, alone and behind the firmware. */
module EmergencyProofs {
  import opened Basics
  import opened Emergency
  import Alarm
  import AlarmInvariant
  import AlarmTiming

  // ---- the ack gate ----

  /** The operator's acknowledgement reaches the relay: the flag of the bus state goes up,
      or a live distress message says so. */
  predicate Acknowledges(g: Gate, a: Act) {
    match a
    case BusState(acknowledged) => acknowledged && !g.busAck
    case Message(d, _, _, _) => Considered(a) && d.acked
    case _ => false
  }

  lemma {:induction false} AckedUntilClear(g: Gate, acts: seq<Act>, interval: int)
    requires g.acked && Clear !in acts && Restart !in acts
    ensures Run(g, acts, interval).acked && Enqueued(g, acts, interval) == 0
  {
    if acts != [] {
      var n := |acts| - 1;
      assert acts[n] in acts;
      AckedUntilClear(g, acts[..n], interval);
    }
  }

  /** Between an acknowledgement and the next clear nothing is queued, whatever arrives,
      as long as the relay itself keeps running. */
  lemma NothingAfterAck(g: Gate, a: Act, acts: seq<Act>, interval: int)
    requires Acknowledges(g, a) && Clear !in acts && Restart !in acts
    ensures !Enqueues(g, a, interval) && Enqueued(Step(g, a, interval), acts, interval) == 0
  {
    AckedUntilClear(Step(g, a, interval), acts, interval);
  }

  // ---- across restarts ----

  /** The act makes the gate hold back whatever follows. */
  predicate Shuts(a: Act) {
    (a.BusState? && a.acknowledged) || (Considered(a) && a.d.acked)
  }

  /** The relay restarted, and nothing has told it of the acknowledgement since. */
  predicate Forgotten(acts: seq<Act>) {
    acts != [] &&
    (acts[|acts| - 1].Restart? || (!Shuts(acts[|acts| - 1]) && Forgotten(acts[..|acts| - 1])))
  }

  /** Forgotten in terms of positions: a restart with no such act after it. */
  lemma {:induction false} ForgottenMeans(acts: seq<Act>)
    ensures Forgotten(acts) <==>
            exists i :: 0 <= i < |acts| && acts[i].Restart? && forall k :: i < k < |acts| ==> !Shuts(acts[k])
  {
    hide Shuts;
    if acts != [] {
      var n := |acts| - 1;
      var before := acts[..n];
      ForgottenMeans(before);
      assert forall k :: 0 <= k < n ==> before[k] == acts[k];
      if Forgotten(before) && !Shuts(acts[n]) {
        var i :| 0 <= i < n && before[i].Restart? && forall k :: i < k < n ==> !Shuts(before[k]);
        assert forall k :: i < k < |acts| ==> !Shuts(acts[k]);
      }
    }
  }

  /** After an acknowledgement and up to the next clear, the gate is shut exactly unless a
      restart has made the relay forget. */
  lemma {:induction false} ShutExactly(g: Gate, acts: seq<Act>, interval: int)
    requires g.acked && Clear !in acts
    ensures var h := Run(g, acts, interval);
      && (h.acked <==> !Forgotten(acts))
      && (Forgotten(acts) ==> !h.busAck)
  {
    if acts != [] {
      var n := |acts| - 1;
      assert acts[n] in acts && forall a :: a in acts[..n] ==> a in acts;
      ShutExactly(g, acts[..n], interval);
    }
  }

  /** So between an acknowledgement and the next clear, restarts included, exactly these
      messages are queued: an unacknowledged one, while the acknowledgement is forgotten, that
      finds room and is not too soon after the last delivery or send of the incident known. */
  lemma SentAfterAckExactly(g: Gate, ack: Act, acts: seq<Act>, m: Act, interval: int)
    requires Acknowledges(g, ack) && Clear !in acts
    ensures var h := Run(Step(g, ack, interval), acts, interval);
      Enqueues(h, m, interval) <==>
      Considered(m) && !m.d.acked && m.room && Forgotten(acts) && !TooSoon(h, m, interval)
  {
    ShutExactly(Step(g, ack, interval), acts, interval);
    hide Run;
    hide TooSoon;
  }

  /** A bus state with the flag brings the acknowledgement back. */
  lemma AckReturnsAfterRestart(g: Gate, acts: seq<Act>, interval: int)
    requires Clear !in acts && Restart !in acts
    ensures Enqueued(Step(Step(g, Restart, interval), BusState(true), interval), acts, interval) == 0
  {
    NothingAfterAck(Step(g, Restart, interval), BusState(true), acts, interval);
  }

  /** A live message about the incident, not acknowledged, with room in the queue. */
  function Live(id: string, now: int): Act {
    Message(Distress(id, true, true, false), false, now, true)
  }

  /** It does happen: an incident is sent and acknowledged, the relay restarts, and one
      interval later a repeat that was not acknowledged in the message is sent again. */
  lemma SentDespiteAck(id: string, start: int, interval: int) returns (acts: seq<Act>, m: Act)
    requires 0 < interval <= start
    ensures Clear !in acts && |acts| == 3 && Acknowledges(Run(OPEN, acts[..1], interval), acts[1])
    ensures Enqueued(OPEN, acts, interval) == 1 && Enqueues(Run(OPEN, acts, interval), m, interval)
    ensures m.d.id == id
  {
    m := Live(id, start + interval);
    var a0, a1, a2 := Live(id, start), BusState(true), Restart;
    acts := [a0, a1, a2];
    var g1 := Step(OPEN, a0, interval);
    var g2 := Step(g1, a1, interval);
    assert acts[..2] == [a0, a1] && [a0, a1][..1] == [a0] && acts[..1] == [a0] && [a0][..0] == [];
    assert Run(OPEN, [a0], interval) == g1;
    assert Run(OPEN, [a0, a1], interval) == g2;
    assert Run(OPEN, acts, interval) == Restored(g2);
    assert Enqueued(OPEN, [], interval) == 0;
    assert Enqueued(OPEN, [a0], interval) == 1;
    assert Enqueued(OPEN, [a0, a1], interval) == 1;
  }

  // ---- spacing ----

  /** No clear, and every distress message is about the same incident; restarts may happen. */
  ghost predicate Lasting(acts: seq<Act>, id: string) {
    forall a :: a in acts ==> !a.Clear? && (a.Message? ==> a.d.id == id)
  }

  /** The same, with no restart of the relay. */
  ghost predicate OneIncident(acts: seq<Act>, id: string) {
    forall a :: a in acts ==> !a.Clear? && !a.Restart? && (a.Message? ==> a.d.id == id)
  }

  /** The last delivery of the incident, `last` if there was none in the run. */
  function LastDelivery(acts: seq<Act>, id: string, last: int): int {
    if acts == [] then last
    else
      var a := acts[|acts| - 1];
      if a.Delivered? && a.id == id then a.now else LastDelivery(acts[..|acts| - 1], id, last)
  }

  lemma {:induction false} DeliveryRemembered(g: Gate, acts: seq<Act>, interval: int, id: string)
    requires g.active == Some(id) && Lasting(acts, id)
    ensures Run(g, acts, interval).active == Some(id)
    ensures Run(g, acts, interval).lastSent == LastDelivery(acts, id, g.lastSent)
  {
    if acts != [] {
      var n := |acts| - 1;
      assert acts[n] in acts && forall a :: a in acts[..n] ==> a in acts;
      DeliveryRemembered(g, acts[..n], interval, id);
    }
  }

  /** A known incident is not sent again within an interval of its last delivery, even
      across restarts of the relay. */
  lemma SpacedFromDelivery(g: Gate, acts: seq<Act>, next: Act, interval: int, id: string)
    requires g.active == Some(id) && Lasting(acts, id)
    requires next.Message? && next.d.id == id && Enqueues(Run(g, acts, interval), next, interval)
    ensures next.now - LastDelivery(acts, id, g.lastSent) >= interval
  {
    DeliveryRemembered(g, acts, interval, id);
    hide Run;
  }

  /** Once queued at time `last`, the next one needs a full interval. */
  ghost predicate Spaced(g: Gate, id: string, last: int) {
    g.active == Some(id) && Since(g.lastEnqueued, id) == last
  }

  lemma StepSpaces(g: Gate, a: Act, interval: int, id: string, last: int)
    requires OneIncident([a], id) && Spaced(g, id, last)
    ensures Enqueues(g, a, interval) ==> a.now >= last + interval && Spaced(Step(g, a, interval), id, a.now)
    ensures !Enqueues(g, a, interval) ==> Spaced(Step(g, a, interval), id, last)
  {
    assert a in [a];
  }

  lemma FirstSpaces(g: Gate, a: Act, interval: int, id: string)
    requires OneIncident([a], id) && Enqueues(g, a, interval)
    ensures Spaced(Step(g, a, interval), id, a.now)
  {
    assert a in [a];
  }

  lemma OneIncidentParts(acts: seq<Act>, id: string, i: nat)
    requires OneIncident(acts, id) && i < |acts|
    ensures OneIncident([acts[i]], id) && OneIncident(acts[..i], id) && OneIncident(acts[i + 1..], id)
  {
    assert acts[i] in acts;
    assert forall a :: a in acts[..i] ==> a in acts;
    assert forall a :: a in acts[i + 1..] ==> a in acts;
  }

  ghost predicate NoneQueued(g: Gate, acts: seq<Act>, interval: int) {
    forall k :: 0 <= k < |acts| ==> !Enqueues(Run(g, acts[..k], interval), acts[k], interval)
  }

  lemma {:induction false} QuietStaysSpaced(g: Gate, acts: seq<Act>, interval: int, id: string, last: int)
    requires OneIncident(acts, id) && Spaced(g, id, last) && NoneQueued(g, acts, interval)
    ensures Spaced(Run(g, acts, interval), id, last)
  {
    hide Step;
    hide Enqueues;
    hide Spaced;
    if acts != [] {
      var n := |acts| - 1;
      OneIncidentParts(acts, id, n);
      assert !Enqueues(Run(g, acts[..n], interval), acts[n], interval);
      forall k | 0 <= k < n ensures !Enqueues(Run(g, acts[..n][..k], interval), acts[..n][k], interval) {
        assert acts[..n][..k] == acts[..k];
      }
      QuietStaysSpaced(g, acts[..n], interval, id, last);
      StepSpaces(Run(g, acts[..n], interval), acts[n], interval, id, last);
    }
  }

  /** Two consecutive sends about one incident are at least the interval apart, whatever
      deliveries, refusals, bus states and rejected messages come between. */
  lemma SendsAreSpaced(g: Gate, first: Act, acts: seq<Act>, second: Act, interval: int, id: string)
    requires OneIncident([first], id) && OneIncident(acts, id) && OneIncident([second], id)
    requires Enqueues(g, first, interval)
    requires NoneQueued(Step(g, first, interval), acts, interval)
    requires Enqueues(Run(Step(g, first, interval), acts, interval), second, interval)
    ensures second.now - first.now >= interval
  {
    FirstSpaces(g, first, interval, id);
    QuietStaysSpaced(Step(g, first, interval), acts, interval, id, first.now);
    StepSpaces(Run(Step(g, first, interval), acts, interval), second, interval, id, first.now);
  }

  // ---- how many ----

  ghost predicate NoLaterThan(acts: seq<Act>, last: int) {
    forall a :: a in acts && a.Message? ==> a.now <= last
  }

  lemma {:induction false} CountAfterFirst(g: Gate, acts: seq<Act>, interval: int, id: string, since: int)
    returns (at: int)
    requires 0 <= interval && OneIncident(acts, id) && Spaced(g, id, since)
    ensures Spaced(Run(g, acts, interval), id, at)
    ensures Enqueued(g, acts, interval) * interval <= at - since
    ensures at == since || exists a :: a in acts && a.Message? && a.now == at
  {
    hide Step;
    hide Enqueues;
    hide Spaced;
    at := since;
    if acts != [] {
      var n := |acts| - 1;
      OneIncidentParts(acts, id, n);
      at := CountAfterFirst(g, acts[..n], interval, id, since);
      var before := Run(g, acts[..n], interval);
      StepSpaces(before, acts[n], interval, id, at);
      EnqueuesMessage(before, acts[n], interval);
      assert acts[n] in acts && forall a :: a in acts[..n] ==> a in acts;
      if Enqueues(before, acts[n], interval) {
        at := acts[n].now;
        OneMoreTimes(Enqueued(g, acts[..n], interval), interval);
      }
    }
  }

  lemma EnqueuesMessage(g: Gate, a: Act, interval: int)
    ensures Enqueues(g, a, interval) ==> a.Message?
  {
  }

  lemma OneMoreTimes(k: int, d: int)
    ensures (k + 1) * d == k * d + d
  {
  }

  /** One incident whose messages reach the relay within a span of time makes at most one
      emergency send per interval of the span, and one more. */
  lemma {:induction false} IncidentBound(g: Gate, acts: seq<Act>, interval: int, id: string, start: int, last: int)
    requires 0 < interval && start <= last && OneIncident(acts, id) && NoLaterThan(acts, last)
    requires forall a :: a in acts && a.Message? ==> start <= a.now
    ensures Enqueued(g, acts, interval) <= 1 + (last - start) / interval
  {
    hide Step;
    hide Enqueues;
    if acts != [] {
      var n := |acts| - 1;
      if NoneQueued(g, acts, interval) {
        NoneQueuedCounts(g, acts, interval);
      } else {
        var i := FirstQueued(g, acts, interval);
        var rest := acts[i + 1..];
        OneIncidentParts(acts, id, i);
        assert acts[i] in acts && forall a :: a in rest ==> a in acts;
        var before := Run(g, acts[..i], interval);
        EnqueuesMessage(before, acts[i], interval);
        FirstSpaces(before, acts[i], interval, id);
        NoneQueuedCounts(g, acts[..i], interval);
        CountSplits(g, acts, interval, i);
        var at := CountAfterFirst(Step(before, acts[i], interval), rest, interval, id, acts[i].now);
        QuotientBound(Enqueued(Step(before, acts[i], interval), rest, interval), interval, last - start);
      }
    }
  }

  /** The time of the k-th interval. */
  function At(start: int, interval: int, k: nat): int { start + k * interval }

  lemma AtNext(start: int, interval: int, k: nat)
    requires 0 <= start && 0 < interval
    ensures At(start, interval, 0) == start && 0 <= At(start, interval, k)
    ensures At(start, interval, k + 1) == At(start, interval, k) + interval
  {
    MulMonotone(0, k, interval);
    OneMoreTimes(k, interval);
  }

  /** An unacknowledged message about the incident at the k-th interval. */
  function Repeat(id: string, start: int, interval: int, k: nat): Act { Live(id, At(start, interval, k)) }

  function Repeats(id: string, start: int, interval: int, n: nat): (acts: seq<Act>)
    ensures |acts| == n
  {
    if n == 0 then [] else Repeats(id, start, interval, n - 1) + [Repeat(id, start, interval, n - 1)]
  }

  /** The bound is met: repeats exactly one interval apart are all sent. */
  lemma {:induction false} BoundAttained(id: string, start: int, interval: int, n: nat)
    requires 0 <= start && 0 < interval
    ensures var acts := Repeats(id, start, interval, n);
      && Enqueued(OPEN, acts, interval) == n
      && OneIncident(acts, id)
      && (0 < n ==> Run(OPEN, acts, interval) == Gate(Some(id), 0, map[id := At(start, interval, n - 1)], false, false))
  {
    hide Step;
    hide Enqueues;
    hide Run;
    hide Enqueued;
    hide At;
    hide OneIncident;
    NothingSent(id, interval);
    if 0 < n {
      BoundAttained(id, start, interval, n - 1);
      var before, last := Repeats(id, start, interval, n - 1), Repeat(id, start, interval, n - 1);
      OneMoreSent(OPEN, before, last, interval);
      OneMoreOfIncident(before, last, id);
      if 1 < n {
        AtNext(start, interval, n - 2);
        NextRepeat(id, At(start, interval, n - 2), interval);
      } else {
        AtNext(start, interval, 0);
        FirstRepeat(id, start, interval);
      }
    }
  }

  lemma NothingSent(id: string, interval: int)
    ensures Enqueued(OPEN, [], interval) == 0 && Run(OPEN, [], interval) == OPEN && OneIncident([], id)
  {
  }

  lemma OneMoreOfIncident(acts: seq<Act>, a: Act, id: string)
    requires OneIncident(acts, id) && a.Message? && a.d.id == id
    ensures OneIncident(acts + [a], id)
  {
  }

  lemma OneMoreSent(g: Gate, acts: seq<Act>, a: Act, interval: int)
    ensures Run(g, acts + [a], interval) == Step(Run(g, acts, interval), a, interval)
    ensures Enqueued(g, acts + [a], interval) ==
            Enqueued(g, acts, interval) + (if Enqueues(Run(g, acts, interval), a, interval) then 1 else 0)
  {
    hide Step;
    hide Enqueues;
    assert (acts + [a])[..|acts|] == acts;
  }

  lemma FirstRepeat(id: string, start: int, interval: int)
    ensures Enqueues(OPEN, Live(id, start), interval)
    ensures Step(OPEN, Live(id, start), interval) == Gate(Some(id), 0, map[id := start], false, false)
  {
    assert map[id := 0][id := start] == map[id := start];
  }

  lemma NextRepeat(id: string, at: int, interval: int)
    requires 0 <= at
    ensures var g := Gate(Some(id), 0, map[id := at], false, false);
      && Enqueues(g, Live(id, at + interval), interval)
      && Step(g, Live(id, at + interval), interval) == Gate(Some(id), 0, map[id := at + interval], false, false)
  {
    assert map[id := at][id := at + interval] == map[id := at + interval];
  }

  lemma {:induction false} NoneQueuedCounts(g: Gate, acts: seq<Act>, interval: int)
    requires NoneQueued(g, acts, interval)
    ensures Enqueued(g, acts, interval) == 0
  {
    hide Step;
    hide Enqueues;
    if acts != [] {
      var n := |acts| - 1;
      assert !Enqueues(Run(g, acts[..n], interval), acts[n], interval);
      forall k | 0 <= k < n ensures !Enqueues(Run(g, acts[..n][..k], interval), acts[..n][k], interval) {
        assert acts[..n][..k] == acts[..k];
      }
      NoneQueuedCounts(g, acts[..n], interval);
    }
  }

  lemma {:induction false} FirstQueued(g: Gate, acts: seq<Act>, interval: int) returns (i: nat)
    requires !NoneQueued(g, acts, interval)
    ensures i < |acts| && Enqueues(Run(g, acts[..i], interval), acts[i], interval)
    ensures NoneQueued(g, acts[..i], interval)
  {
    hide Step;
    hide Enqueues;
    var n := |acts| - 1;
    if NoneQueued(g, acts[..n], interval) {
      i := n;
      forall k | 0 <= k < n ensures !Enqueues(Run(g, acts[..k], interval), acts[k], interval) {
        assert acts[..n][..k] == acts[..k];
        assert !Enqueues(Run(g, acts[..n][..k], interval), acts[..n][k], interval);
      }
    } else {
      i := FirstQueued(g, acts[..n], interval);
      assert acts[..n][..i] == acts[..i];
    }
  }

  lemma {:induction false} CountSplits(g: Gate, acts: seq<Act>, interval: int, i: nat)
    requires i < |acts|
    ensures var after := Step(Run(g, acts[..i], interval), acts[i], interval);
      && Run(g, acts, interval) == Run(after, acts[i + 1..], interval)
      && Enqueued(g, acts, interval) ==
         Enqueued(g, acts[..i], interval) +
         (if Enqueues(Run(g, acts[..i], interval), acts[i], interval) then 1 else 0) +
         Enqueued(after, acts[i + 1..], interval)
  {
    hide Step;
    hide Enqueues;
    var n := |acts| - 1;
    if i == n {
      assert acts[i + 1..] == [];
    } else {
      CountSplits(g, acts[..n], interval, i);
      assert acts[..n][..i] == acts[..i];
      assert acts[..n][i + 1..] == acts[i + 1..][..n - i - 1];
    }
  }

  // ---- behind the firmware ----

  lemma LiveIncidentSends(c: Alarm.Config, f: Alarm.Firmware, cmd: Alarm.Command)
    requires AlarmInvariant.Joint(f) && f.bus.incident.active
    requires Alarm.Step(c, f, cmd).0.bus.incident.active
    ensures Alarm.Step(c, f, cmd).0.bus.incident.id == f.bus.incident.id && f.bus.incident.id.Some?
    ensures forall o :: o in Alarm.Step(c, f, cmd).1 ==> !o.Cleared? && (o.Published? ==> o.id == f.bus.incident.id)
  {
  }

  ghost predicate ActiveThroughout(c: Alarm.Config, f: Alarm.Firmware, cmds: seq<Alarm.Command>) {
    forall k :: 0 <= k <= |cmds| ==> Alarm.After(c, f, cmds[..k]).bus.incident.active
  }

  /** While an incident lasts, everything the firmware publishes about it carries its one
      id, and nothing clears the retained message. */
  lemma {:induction false} IncidentHasOneId(c: Alarm.Config, f: Alarm.Firmware, cmds: seq<Alarm.Command>)
    requires AlarmInvariant.Joint(f) && ActiveThroughout(c, f, cmds)
    ensures Alarm.After(c, f, cmds).bus.incident.id == f.bus.incident.id && f.bus.incident.id.Some?
    ensures forall o :: o in Alarm.Sent(c, f, cmds) ==> !o.Cleared? && (o.Published? ==> o.id == f.bus.incident.id)
  {
    hide Alarm.Step;
    assert cmds[..|cmds|] == cmds;
    if cmds == [] {
      assert Alarm.After(c, f, cmds[..0]).bus.incident.active;
      IdOfActive(f);
    } else {
      var n := |cmds| - 1;
      forall k | 0 <= k <= n ensures Alarm.After(c, f, cmds[..n][..k]).bus.incident.active {
        assert cmds[..n][..k] == cmds[..k];
      }
      assert Alarm.After(c, f, cmds[..|cmds|]).bus.incident.active;
      assert Alarm.After(c, f, cmds[..n]).bus.incident.active;
      IncidentHasOneId(c, f, cmds[..n]);
      AlarmTiming.JointAfter(c, f, cmds[..n]);
      LiveIncidentSends(c, Alarm.After(c, f, cmds[..n]), cmds[n]);
    }
  }

  lemma IdOfActive(f: Alarm.Firmware)
    requires AlarmInvariant.Joint(f) && f.bus.incident.active
    ensures f.bus.incident.id.Some?
  {
  }

  /** The id on the wire; the firmware puts a fixed one in place of none. */
  function WireId(id: Option<nat>, text: nat -> string): string {
    if id.None? then "distress-uninitialized" else text(id.value)
  }

  /** Every distress message and clear the relay handles comes from what the firmware sent,
      and the relay is not restarted; `text` is the firmware's rendering of an incident id. */
  ghost predicate FedBy(acts: seq<Act>, sent: seq<Alarm.Output>, text: nat -> string) {
    forall a :: a in acts ==>
      && !a.Restart? && (a.Clear? ==> Alarm.Cleared in sent)
      && (a.Message? ==> exists o :: o in sent && o.Published? && a.d.id == WireId(o.id, text))
  }

  /** Firmware and relay together: however often the firmware republishes, an incident that
      lasts leads to at most one emergency send per repeat interval, and one more. */
  lemma IncidentThroughBoth(
      c: Alarm.Config, f: Alarm.Firmware, cmds: seq<Alarm.Command>, text: nat -> string,
      g: Gate, acts: seq<Act>, interval: int, start: int, last: int)
    requires AlarmInvariant.Joint(f) && ActiveThroughout(c, f, cmds)
    requires FedBy(acts, Alarm.Sent(c, f, cmds), text)
    requires 0 < interval && start <= last && NoLaterThan(acts, last)
    requires forall a :: a in acts && a.Message? ==> start <= a.now
    ensures Enqueued(g, acts, interval) <= 1 + (last - start) / interval
  {
    hide AlarmInvariant.Joint;
    hide Alarm.Sent;
    hide Alarm.After;
    IncidentHasOneId(c, f, cmds);
    var id := text(f.bus.incident.id.value);
    assert OneIncident(acts, id);
    IncidentBound(g, acts, interval, id, start, last);
  }

  /** A stale broadcast of the firmware is one more emergency to the relay: its fixed id is
      taken for a new incident, however recently the real one was sent and cleared. */
  lemma StaleBroadcastIsSent(id: nat, text: nat -> string, start: int, now: int, interval: int)
    ensures var acts := [Live(WireId(Some(id), text), start), Clear, Live(WireId(None, text), now)];
      FedBy(acts, [Alarm.Published(Some(id), NO_EVENT), Alarm.Cleared, Alarm.Published(None, NO_EVENT)], text)
    ensures var first := Step(OPEN, Live(WireId(Some(id), text), start), interval);
      && Enqueues(OPEN, Live(WireId(Some(id), text), start), interval)
      && Enqueues(Step(first, Clear, interval), Live(WireId(None, text), now), interval)
  {
    var x, y, z := Alarm.Published(Some(id), NO_EVENT), Alarm.Cleared, Alarm.Published(None, NO_EVENT);
    assert x in [x, y, z] && y in [x, y, z] && z in [x, y, z];
  }

  const NO_EVENT := Alarm.Event(Alarm.BeaconNear, "", 0, 0)
}
