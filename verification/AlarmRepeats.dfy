/** What a notification iteration sends, and when an unanswered alarm is repeated, told
    from the commands of the run alone. */
module AlarmRepeats {
  import opened Basics
  import opened Alarm
  import opened AlarmInvariant
  import opened AlarmTiming

  // ---- evidence ----

  /** What a new event can outrank; a beacon event without a name outranks nothing. */
  function Weight(e: Event): nat {
    match e.trigger
    case PresenceDetected => 0
    case Co2Rise => 1
    case BeaconNear => if e.beacon == "" then 0 else 2
  }

  lemma BetterExactly(current: Event, candidate: Event)
    ensures BetterTrigger(current, candidate) <==> Weight(candidate) > Rank(current.trigger)
  {
  }

  /** The evidence of an alarm that began with e: an arriving event replaces it exactly when
      it outranks it. */
  function Evidence(e: Event, cmds: seq<Command>): Event {
    if cmds == [] then e
    else
      var before := Evidence(e, cmds[..|cmds| - 1]);
      var last := cmds[|cmds| - 1];
      if last.Notify? && last.arrived.Some? && Weight(last.arrived.value) > Rank(before.trigger)
      then last.arrived.value else before
  }

  /** An alarm is being prepared or has an incident open. */
  predicate InAlarm(f: Firmware) { f.bus.mode.Pending? || f.bus.incident.active }

  ghost predicate InAlarmThroughout(c: Config, f: Firmware, cmds: seq<Command>) {
    forall k :: 0 <= k <= |cmds| ==> InAlarm(After(c, f, cmds[..k]))
  }

  lemma EvidenceStep(c: Config, f: Firmware, cmd: Command)
    requires Joint(f) && InAlarm(f) && InAlarm(Step(c, f, cmd).0)
    ensures var g := Step(c, f, cmd).0;
      g.tracker.event ==
      if cmd.Notify? && cmd.arrived.Some? && Weight(cmd.arrived.value) > Rank(f.tracker.event.trigger)
      then cmd.arrived.value else f.tracker.event
  {
    if cmd.Notify? && cmd.arrived.Some? { BetterExactly(f.tracker.event, cmd.arrived.value); }
    hide BetterTrigger;
    hide Weight;
    hide Rank;
  }

  lemma ThroughoutParts(c: Config, f: Firmware, cmds: seq<Command>, n: nat)
    requires InAlarmThroughout(c, f, cmds) && |cmds| == n + 1
    ensures InAlarmThroughout(c, f, cmds[..n]) && After(c, f, cmds) == Step(c, After(c, f, cmds[..n]), cmds[n]).0
    ensures InAlarm(After(c, f, cmds[..n])) && InAlarm(After(c, f, cmds))
  {
    hide Step;
    hide InAlarm;
    assert cmds[..n + 1] == cmds;
    assert InAlarm(After(c, f, cmds[..n + 1]));
    assert forall k :: 0 <= k <= n ==> cmds[..n][..k] == cmds[..k];
  }

  /** Over every run of an alarm, pending or sounding: it carries the strongest evidence
      that has come, the first of its strength. */
  lemma {:induction false} AlarmCarriesEvidence(c: Config, f: Firmware, cmds: seq<Command>)
    requires Joint(f) && InAlarmThroughout(c, f, cmds)
    ensures After(c, f, cmds).tracker.event == Evidence(f.tracker.event, cmds)
  {
    if cmds != [] {
      hide Step;
      hide Joint;
      hide InAlarm;
      hide InAlarmThroughout;
      hide Weight;
      hide Rank;
      var n := |cmds| - 1;
      ThroughoutParts(c, f, cmds, n);
      AlarmCarriesEvidence(c, f, cmds[..n]);
      JointAfter(c, f, cmds[..n]);
      EvidenceStep(c, After(c, f, cmds[..n]), cmds[n]);
    }
  }

  // ---- repeats ----

  predicate Sounding(f: Firmware) { f.bus.incident.active && !f.bus.incident.acknowledged }

  ghost predicate SoundingThroughout(c: Config, f: Firmware, cmds: seq<Command>) {
    forall k :: 0 <= k <= |cmds| ==> Sounding(After(c, f, cmds[..k]))
  }

  /** The repeat interval has passed at this iteration since the time `last`. */
  predicate Due(c: Config, last: int, cmd: Command) {
    cmd.Notify? && cmd.now - last >= Micros(c.repeatInterval)
  }

  /** The last iteration of the run that is the opening, at time `start`, or a repeat: one
      that comes at least the interval after the one before. */
  function LastRepeat(c: Config, start: int, cmds: seq<Command>): int {
    if cmds == [] then start
    else
      var before := LastRepeat(c, start, cmds[..|cmds| - 1]);
      if Due(c, before, cmds[|cmds| - 1]) then cmds[|cmds| - 1].now else before
  }

  lemma WholeSecondsDue(interval: nat, since: int, now: int)
    requires 0 < interval
    ensures Elapsed(since, now) >= interval <==> now - since >= Micros(interval)
  {
  }

  /** What an iteration sends during an unanswered incident. */
  lemma SoundingSends(c: Config, f: Firmware, cmd: Command)
    requires Joint(f) && Sounding(f) && cmd.Notify? && ValidConfig(c)
    ensures var (g, out) := Step(c, f, cmd);
      var better := cmd.arrived.Some? && Weight(cmd.arrived.value) > Rank(f.tracker.event.trigger);
      var due := Due(c, f.tracker.lastSend, cmd);
      && Sounding(g) && g.bus.incident == f.bus.incident
      && g.tracker.lastSend == (if due then cmd.now else f.tracker.lastSend)
      && out == (if better then [Published(f.bus.incident.id, cmd.arrived.value)] else []) +
                (if due then [Published(f.bus.incident.id, g.tracker.event)] else [])
  {
    if cmd.arrived.Some? { BetterExactly(f.tracker.event, cmd.arrived.value); }
    WholeSecondsDue(c.repeatInterval, f.tracker.lastSend, cmd.now);
    hide BetterTrigger;
    hide Weight;
    hide Rank;
    hide Elapsed;
  }

  lemma SoundingKeepsTime(c: Config, f: Firmware, cmd: Command)
    requires Joint(f) && Sounding(f) && Sounding(Step(c, f, cmd).0) && !cmd.Notify?
    ensures var g := Step(c, f, cmd).0;
      g.tracker == f.tracker && g.bus.incident == f.bus.incident
  {
  }

  lemma SoundingParts(c: Config, f: Firmware, cmds: seq<Command>, n: nat)
    requires SoundingThroughout(c, f, cmds) && |cmds| == n + 1
    ensures SoundingThroughout(c, f, cmds[..n]) && After(c, f, cmds) == Step(c, After(c, f, cmds[..n]), cmds[n]).0
    ensures Sounding(After(c, f, cmds[..n])) && Sounding(After(c, f, cmds))
  {
    hide Step;
    hide Sounding;
    assert cmds[..n + 1] == cmds;
    assert Sounding(After(c, f, cmds[..n + 1]));
    assert forall k :: 0 <= k <= n ==> cmds[..n][..k] == cmds[..k];
  }

  /** The tracker's clock is the one told from the commands. */
  lemma {:induction false} ClockFollowsCommands(c: Config, f: Firmware, cmds: seq<Command>)
    requires Joint(f) && ValidConfig(c) && SoundingThroughout(c, f, cmds)
    ensures var g := After(c, f, cmds);
      && Joint(g) && Sounding(g) && g.bus.incident == f.bus.incident
      && g.tracker.lastSend == LastRepeat(c, f.tracker.lastSend, cmds)
      && g.tracker.event == Evidence(f.tracker.event, cmds)
  {
    JointAfter(c, f, cmds);
    if cmds == [] {
      assert cmds[..0] == cmds;
    } else {
      hide Step;
      hide Joint;
      hide Due;
      hide Weight;
      hide Rank;
      var n := |cmds| - 1;
      SoundingParts(c, f, cmds, n);
      hide SoundingThroughout;
      ClockFollowsCommands(c, f, cmds[..n]);
      var g := After(c, f, cmds[..n]);
      assert InAlarm(g) && InAlarm(After(c, f, cmds));
      EvidenceStep(c, g, cmds[n]);
      if cmds[n].Notify? {
        SoundingSends(c, g, cmds[n]);
      } else {
        SoundingKeepsTime(c, g, cmds[n]);
        NotDue(c, LastRepeat(c, f.tracker.lastSend, cmds[..n]), cmds[n]);
      }
    }
  }

  lemma NotDue(c: Config, last: int, cmd: Command)
    requires !cmd.Notify?
    ensures !Due(c, last, cmd)
  {
  }

  /** Opening an alarm: the incident gets the wall clock's id. */
  lemma OpeningNames(c: Config, f: Firmware, first: Command)
    requires Joint(f) && !f.bus.mode.Distress? && Step(c, f, first).0.bus.mode.Distress?
    ensures var (g, out) := Step(c, f, first);
      && first.Notify? && Joint(g) && Sounding(g) && g.tracker.lastSend == first.now
      && g.bus.incident.id == Some(first.wall) && out == [Published(Some(first.wall), g.tracker.event)]
  {
    FirstBroadcast(c, f, first);
    ActiveOnlyWithId(f);
  }

  lemma ActiveOnlyWithId(f: Firmware)
    requires Joint(f) && !f.bus.incident.active
    ensures f.bus.incident.id.None?
  {
  }

  /** Over every run from the opening of an alarm in which nobody acknowledges or ends the
      incident: an iteration sends the incident's id with the evidence exactly when the
      interval has passed since the last opening or repeat of the run; before it, the
      better evidence if it brings any; and nothing else. */
  lemma RepeatsExactly(c: Config, f: Firmware, first: Command, cmds: seq<Command>, cmd: Command)
    requires ValidConfig(c) && Joint(f) && !f.bus.mode.Distress? && Step(c, f, first).0.bus.mode.Distress?
    requires SoundingThroughout(c, Step(c, f, first).0, cmds) && cmd.Notify?
    ensures var g := Step(c, f, first).0;
      var had := Evidence(g.tracker.event, cmds);
      var better := cmd.arrived.Some? && Weight(cmd.arrived.value) > Rank(had.trigger);
      var now := if better then cmd.arrived.value else had;
      Step(c, After(c, g, cmds), cmd).1 ==
        (if better then [Published(Some(first.wall), now)] else []) +
        (if cmd.now - LastRepeat(c, first.now, cmds) >= Micros(c.repeatInterval)
         then [Published(Some(first.wall), now)] else [])
  {
    var g := Step(c, f, first).0;
    OpeningNames(c, f, first);
    ClockFollowsCommands(c, g, cmds);
    var h := After(c, g, cmds);
    SoundingSends(c, h, cmd);
    EvidenceStep(c, h, cmd);
    hide Step;
    hide After;
    hide Evidence;
    hide LastRepeat;
    hide Weight;
    hide Rank;
  }

  // ---- how many, at least ----

  /** Iterations keep coming: in order of time, never more than `gap` apart. */
  ghost predicate KeepComing(start: int, cmds: seq<Command>, gap: int) {
    forall k :: 0 <= k < |cmds| && cmds[k].Notify? ==>
      LastIteration(start, cmds[..k]) <= cmds[k].now <= LastIteration(start, cmds[..k]) + gap
  }

  function LastIteration(start: int, cmds: seq<Command>): int {
    if cmds == [] then start
    else if cmds[|cmds| - 1].Notify? then cmds[|cmds| - 1].now
    else LastIteration(start, cmds[..|cmds| - 1])
  }

  /** Repeats of the run, told from its commands. */
  function Repeats(c: Config, start: int, cmds: seq<Command>): nat {
    if cmds == [] then 0
    else
      var before := cmds[..|cmds| - 1];
      Repeats(c, start, before) + if Due(c, LastRepeat(c, start, before), cmds[|cmds| - 1]) then 1 else 0
  }

  lemma KeepComingParts(start: int, cmds: seq<Command>, gap: int, n: nat)
    requires KeepComing(start, cmds, gap) && |cmds| == n + 1
    ensures KeepComing(start, cmds[..n], gap)
    ensures cmds[n].Notify? ==>
      LastIteration(start, cmds[..n]) <= cmds[n].now <= LastIteration(start, cmds[..n]) + gap
  {
    hide LastIteration;
    assert forall k :: 0 <= k < n ==> cmds[..n][..k] == cmds[..k];
  }

  lemma {:induction false} RepeatsKeepUp(c: Config, start: int, cmds: seq<Command>, gap: int)
    requires 0 <= gap && 0 < c.repeatInterval && KeepComing(start, cmds, gap)
    ensures var k := Repeats(c, start, cmds);
      && LastRepeat(c, start, cmds) - start <= k * (Micros(c.repeatInterval) + gap)
      && LastIteration(start, cmds) - LastRepeat(c, start, cmds) < Micros(c.repeatInterval)
  {
    if cmds != [] {
      var n := |cmds| - 1;
      KeepComingParts(start, cmds, gap, n);
      RepeatsKeepUp(c, start, cmds[..n], gap);
      Distribute(Repeats(c, start, cmds[..n]), 1, Micros(c.repeatInterval) + gap);
    }
  }

  lemma RepeatsSpan(c: Config, start: int, cmds: seq<Command>, gap: int)
    requires 0 <= gap && 0 < c.repeatInterval && KeepComing(start, cmds, gap)
    ensures LastIteration(start, cmds) - start < (Repeats(c, start, cmds) + 1) * (Micros(c.repeatInterval) + gap)
  {
    RepeatsKeepUp(c, start, cmds, gap);
    Distribute(Repeats(c, start, cmds), 1, Micros(c.repeatInterval) + gap);
    hide KeepComing;
    hide LastIteration;
    hide Repeats;
    hide LastRepeat;
  }

  lemma {:induction false} RepeatsArePublished(c: Config, f: Firmware, cmds: seq<Command>)
    requires Joint(f) && ValidConfig(c) && SoundingThroughout(c, f, cmds)
    ensures Repeats(c, f.tracker.lastSend, cmds) <= Publishes(c, f, cmds)
  {
    if cmds != [] {
      hide Step;
      hide Joint;
      hide Due;
      hide Sounding;
      var n := |cmds| - 1;
      SoundingParts(c, f, cmds, n);
      hide SoundingThroughout;
      RepeatsArePublished(c, f, cmds[..n]);
      ClockFollowsCommands(c, f, cmds[..n]);
      var g := After(c, f, cmds[..n]);
      if cmds[n].Notify? { RepeatCounts(c, g, cmds[n]); } else { NotDue(c, g.tracker.lastSend, cmds[n]); }
    }
  }

  lemma RepeatCounts(c: Config, f: Firmware, cmd: Command)
    requires Joint(f) && Sounding(f) && cmd.Notify? && ValidConfig(c)
    ensures Due(c, f.tracker.lastSend, cmd) ==> 1 <= Count(Step(c, f, cmd).1)
  {
    SoundingSends(c, f, cmd);
    var better := cmd.arrived.Some? && Weight(cmd.arrived.value) > Rank(f.tracker.event.trigger);
    var x := if better then [Published(f.bus.incident.id, cmd.arrived.value)] else [];
    var y := [Published(f.bus.incident.id, Step(c, f, cmd).0.tracker.event)];
    CountOfTwo(x, y);
    hide Step;
  }

  /** While iterations keep coming, an unanswered alarm is not left quiet: from its opening
      to the last iteration, at least one repeat for every interval and gap. */
  lemma UnansweredKeepsSounding(c: Config, f: Firmware, first: Command, cmds: seq<Command>, gap: int)
    requires ValidConfig(c) && Joint(f) && !f.bus.mode.Distress? && Step(c, f, first).0.bus.mode.Distress?
    requires SoundingThroughout(c, Step(c, f, first).0, cmds)
    requires first.Notify? && 0 <= gap && KeepComing(first.now, cmds, gap)
    ensures var span := LastIteration(first.now, cmds) - first.now;
      Publishes(c, Step(c, f, first).0, cmds) >= span / (Micros(c.repeatInterval) + gap)
  {
    var g := Step(c, f, first).0;
    OpeningNames(c, f, first);
    RepeatsArePublished(c, g, cmds);
    RepeatsSpan(c, first.now, cmds, gap);
    AtMostQuotient(LastIteration(first.now, cmds) - first.now, Micros(c.repeatInterval) + gap,
                   Repeats(c, first.now, cmds));
    hide *;
  }

  lemma AtMostQuotient(span: int, d: int, k: nat)
    requires 0 < d && span < (k + 1) * d
    ensures span / d <= k
  {
    var q := span / d;
    assert span == q * d + span % d;
    if q >= k + 1 { MulMonotone(k + 1, q, d); }
  }

  // ---- all an iteration ever sends ----

  /** Every message of every iteration: the opening of an alarm, better evidence or a due
      repeat of an unanswered one, or a stale broadcast; in particular nothing while an
      alarm is pending or acknowledged. */
  lemma IterationSendsExactly(c: Config, f: Firmware, cmd: Command)
    requires Joint(f) && cmd.Notify? && ValidConfig(c)
    ensures var (g, out) := Step(c, f, cmd);
      var better := cmd.arrived.Some? && Weight(cmd.arrived.value) > Rank(f.tracker.event.trigger);
      if Sounding(f) then
        out == (if better then [Published(f.bus.incident.id, g.tracker.event)] else []) +
               (if Due(c, f.tracker.lastSend, cmd) then [Published(f.bus.incident.id, g.tracker.event)] else [])
      else if !f.bus.mode.Distress? && g.bus.mode.Distress? then out == [Published(Some(cmd.wall), g.tracker.event)]
      else if StaleBroadcast(c, f, cmd) then out == [Published(None, g.tracker.event)]
      else out == []
  {
    if Sounding(f) {
      SoundingSends(c, f, cmd);
      EvidenceStep(c, f, cmd);
    } else if !f.bus.mode.Distress? && Step(c, f, cmd).0.bus.mode.Distress? {
      OpeningNames(c, f, cmd);
    } else {
      QuietOrStale(c, f, cmd);
    }
    hide Step;
    hide StaleBroadcast;
  }

  lemma QuietOrStale(c: Config, f: Firmware, cmd: Command)
    requires Joint(f) && cmd.Notify? && ValidConfig(c) && !Sounding(f)
    requires !(!f.bus.mode.Distress? && Step(c, f, cmd).0.bus.mode.Distress?)
    ensures var (g, out) := Step(c, f, cmd);
      out == if StaleBroadcast(c, f, cmd) then [Published(None, g.tracker.event)] else []
  {
  }
}
