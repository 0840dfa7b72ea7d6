/** The CO2 tracker beside the alarm: when it may raise its event. */
module Co2Proofs {
  import opened Co2
  import Alarm
  import AlarmInvariant

  /** The firmware's alarm and the CO2 tracker reading from it. */
  datatype System = System(alarm: Alarm.Firmware, tracker: Tracker)

  datatype Act = Bus(cmd: Alarm.Command) | Reading(co2: nat, stale: bool)

  datatype Setup = Setup(config: Alarm.Config, co2: Settings)

  function Env(s: System, stale: bool): Surroundings {
    Surroundings(s.alarm.bus.generation, Alarm.IsArmed(s.alarm.bus.mode), s.alarm.bus.baseline, stale)
  }

  function TakeReading(st: Settings, s: System, co2: nat, stale: bool): System {
    System(s.alarm.(bus := s.alarm.bus.(baseline := BaselineAfter(Env(s, stale), co2))),
           Step(st, s.tracker, Env(s, stale), co2))
  }

  function Move(u: Setup, s: System, a: Act): System {
    match a
    case Bus(cmd) => s.(alarm := Alarm.Step(u.config, s.alarm, cmd).0)
    case Reading(co2, stale) => TakeReading(u.co2, s, co2, stale)
  }

  function Run(u: Setup, s: System, acts: seq<Act>): System {
    if acts == [] then s else Move(u, Run(u, s, acts[..|acts| - 1]), acts[|acts| - 1])
  }

  /** The tracker puts an event on the queue at this act. */
  predicate Attempted(u: Setup, s: System, a: Act) {
    a.Reading? && Attempts(u.co2, s.tracker, Env(s, a.stale), a.co2)
  }

  /** The reading is a rise: armed, fresh, far enough above the baseline, and rising. */
  predicate Rise(u: Setup, s: System, a: Act) {
    a.Reading? && Qualifies(u.co2, s.tracker, Env(s, a.stale), a.co2)
  }

  function Readings(acts: seq<Act>): seq<nat> {
    if acts == [] then []
    else Readings(acts[..|acts| - 1]) +
         if acts[|acts| - 1].Reading? then [acts[|acts| - 1].co2] else []
  }

  function Boot(raw: bool, now: int): System { System(Alarm.Started(raw, now), INITIAL) }

  // ---- the rolling window ----

  lemma LastNAgain(s: seq<nat>, x: nat, n: nat)
    ensures LastN(LastN(s, n) + [x], n) == LastN(s + [x], n)
  {
    if |s| > n {
      assert (s[|s| - n..] + [x])[1..] == (s + [x])[|s| - n + 1..];
    }
  }

  lemma LastNOfEmpty(n: nat)
    ensures LastN([], n) == []
  {
  }

  lemma MoveTakes(u: Setup, s: System, a: Act)
    ensures Move(u, s, a).tracker.window ==
            if a.Reading? then LastN(s.tracker.window + [a.co2], u.co2.window) else s.tracker.window
  {
  }

  /** Whatever the alarm does meanwhile, the buffer holds the last readings. */
  lemma {:induction false} WindowIsLastReadings(u: Setup, s: System, acts: seq<Act>)
    requires s.tracker.window == []
    ensures Run(u, s, acts).tracker.window == LastN(Readings(acts), u.co2.window)
  {
    hide Move;
    hide LastN;
    if acts == [] {
      LastNOfEmpty(u.co2.window);
    } else {
      var before := acts[..|acts| - 1];
      WindowIsLastReadings(u, s, before);
      MoveTakes(u, Run(u, s, before), acts[|acts| - 1]);
      if acts[|acts| - 1].Reading? {
        LastNAgain(Readings(before), acts[|acts| - 1].co2, u.co2.window);
      } else {
        assert Readings(acts) == Readings(before);
      }
    }
  }

  /** So the rolling delta is the newest minus the oldest of the last W readings. */
  lemma RollingDeltaOfRun(u: Setup, s: System, acts: seq<Act>)
    requires ValidSettings(u.co2) && s.tracker.window == [] && Readings(acts) != []
    ensures var r := Readings(acts);
      var w := Run(u, s, acts).tracker.window;
      w != [] && RollingDelta(w) ==
        Saturate(Minus(r[|r| - 1], r[if |r| <= u.co2.window then 0 else |r| - u.co2.window]))
  {
    WindowIsLastReadings(u, s, acts);
  }

  // ---- at most one event per armed generation ----

  /** The generation never goes back, and arming always starts a new one. */
  lemma ArmingStartsGeneration(c: Alarm.Config, f: Alarm.Firmware, cmd: Alarm.Command)
    requires AlarmInvariant.Joint(f)
    ensures var g := Alarm.Step(c, f, cmd).0;
      && f.bus.generation <= g.bus.generation
      && (!Alarm.IsArmed(f.bus.mode) && Alarm.IsArmed(g.bus.mode) ==> g.bus.generation == f.bus.generation + 1)
  {
  }

  lemma {:induction false} JointAfterActs(u: Setup, s: System, acts: seq<Act>)
    requires AlarmInvariant.Joint(s.alarm)
    ensures AlarmInvariant.Joint(Run(u, s, acts).alarm)
  {
    hide Alarm.Step;
    if acts != [] {
      var before := Run(u, s, acts[..|acts| - 1]);
      JointAfterActs(u, s, acts[..|acts| - 1]);
      if acts[|acts| - 1].Bus? {
        AlarmInvariant.StepKeepsJoint(u.config, before.alarm, acts[|acts| - 1].cmd);
      }
    }
  }

  /** No further event belongs to generation g. */
  predicate Spent(s: System, g: nat) {
    || g < s.alarm.bus.generation
    || (&& g == s.alarm.bus.generation == s.tracker.seen
        && (s.tracker.alerted || !Alarm.IsArmed(s.alarm.bus.mode)))
  }

  lemma SpentStays(u: Setup, s: System, a: Act, g: nat)
    requires AlarmInvariant.Joint(s.alarm) && Spent(s, g)
    ensures Spent(Move(u, s, a), g)
    ensures Attempted(u, s, a) ==> g < s.alarm.bus.generation
  {
    hide Alarm.Step;
    if a.Bus? {
      ArmingStartsGeneration(u.config, s.alarm, a.cmd);
    }
  }

  lemma AttemptSpends(u: Setup, s: System, a: Act)
    requires Attempted(u, s, a)
    ensures Spent(Move(u, s, a), s.alarm.bus.generation)
  {
  }

  lemma {:induction false} SpentUntil(u: Setup, s: System, acts: seq<Act>, g: nat)
    requires AlarmInvariant.Joint(s.alarm) && Spent(s, g)
    ensures Spent(Run(u, s, acts), g)
  {
    hide Alarm.Step;
    hide Move;
    hide Spent;
    if acts != [] {
      var before := acts[..|acts| - 1];
      SpentUntil(u, s, before, g);
      JointAfterActs(u, s, before);
      SpentStays(u, Run(u, s, before), acts[|acts| - 1], g);
    }
  }

  lemma {:induction false} RunSplits(u: Setup, s: System, acts: seq<Act>, i: nat)
    requires i <= |acts|
    ensures Run(u, s, acts) == Run(u, Run(u, s, acts[..i]), acts[i..])
  {
    hide Move;
    if i == |acts| {
      assert acts[..i] == acts;
    } else {
      var before := acts[..|acts| - 1];
      RunSplits(u, s, before, i);
      assert before[..i] == acts[..i];
      assert before[i..] == acts[i..][..|acts| - i - 1];
    }
  }

  /** Two CO2 events of a run always belong to different armed generations. */
  lemma OneEventPerGeneration(u: Setup, raw: bool, now: int, acts: seq<Act>, i: nat, j: nat)
    requires i < j < |acts|
    requires Attempted(u, Run(u, Boot(raw, now), acts[..i]), acts[i])
    requires Attempted(u, Run(u, Boot(raw, now), acts[..j]), acts[j])
    ensures Run(u, Boot(raw, now), acts[..i]).alarm.bus.generation <
            Run(u, Boot(raw, now), acts[..j]).alarm.bus.generation
  {
    var s0 := Boot(raw, now);
    assert AlarmInvariant.Joint(s0.alarm);
    hide Alarm.Step;
    hide Move;
    hide Spent;
    hide Attempted;
    hide AlarmInvariant.Joint;
    hide Boot;
    var g := Run(u, s0, acts[..i]).alarm.bus.generation;
    AttemptSpends(u, Run(u, s0, acts[..i]), acts[i]);
    assert acts[..i + 1][..i] == acts[..i];
    assert acts[..j][..i + 1] == acts[..i + 1];
    JointAfterActs(u, s0, acts[..i + 1]);
    RunSplits(u, s0, acts[..j], i + 1);
    SpentUntil(u, Run(u, s0, acts[..i + 1]), acts[..j][i + 1..], g);
    JointAfterActs(u, s0, acts[..j]);
    SpentStays(u, Run(u, s0, acts[..j]), acts[j], g);
  }

  // ---- an event needs two consecutive rises of its generation ----

  /** The last reading of the run was act j, a rise of generation g. */
  ghost predicate RoseAt(u: Setup, s: System, acts: seq<Act>, j: int, g: nat) {
    && 0 <= j < |acts|
    && Rise(u, Run(u, s, acts[..j]), acts[j])
    && Run(u, s, acts[..j]).alarm.bus.generation == g
    && forall k :: j < k < |acts| ==> acts[k].Bus?
  }

  ghost predicate PreviousRose(u: Setup, s: System, acts: seq<Act>, g: nat) {
    exists j :: RoseAt(u, s, acts, j, g)
  }

  lemma OneReading(u: Setup, s: System, a: Act)
    requires s.tracker.window == [] ==> s.tracker.rises == 0
    requires ValidSettings(u.co2) && a.Reading?
    ensures var t := Move(u, s, a).tracker;
      && t.window != []
      && t.seen == s.alarm.bus.generation
      && (0 < t.rises ==> Rise(u, s, a))
  {
  }

  lemma {:induction false} RisesHaveCause(u: Setup, raw: bool, now: int, acts: seq<Act>) returns (j: nat)
    requires ValidSettings(u.co2)
    ensures var s := Run(u, Boot(raw, now), acts);
      && (s.tracker.window == [] ==> s.tracker.rises == 0)
      && (0 < s.tracker.rises ==> RoseAt(u, Boot(raw, now), acts, j, s.tracker.seen))
  {
    hide Alarm.Step;
    hide Rise;
    hide Co2.Step;
    j := 0;
    if acts != [] {
      var n := |acts| - 1;
      var s0 := Boot(raw, now);
      j := RisesHaveCause(u, raw, now, acts[..n]);
      var s := Run(u, s0, acts[..n]);
      if acts[n].Reading? {
        OneReading(u, s, acts[n]);
        j := n;
      } else if 0 < s.tracker.rises {
        assert acts[..n][..j] == acts[..j];
      }
    }
  }

  lemma AttemptNeedsRise(u: Setup, s: System, a: Act)
    requires Attempted(u, s, a)
    ensures Rise(u, s, a) && 0 < s.tracker.rises && s.tracker.seen == s.alarm.bus.generation
    ensures Alarm.IsArmed(s.alarm.bus.mode)
  {
  }

  /** Every event follows two consecutive readings of its own armed generation that
      both qualified, with no other reading between them. */
  lemma EventNeedsTwoRises(u: Setup, raw: bool, now: int, acts: seq<Act>, a: Act) returns (j: nat)
    requires ValidSettings(u.co2)
    requires Attempted(u, Run(u, Boot(raw, now), acts), a)
    ensures j < |acts| && forall k :: j < k < |acts| ==> acts[k].Bus?
    ensures var first := Run(u, Boot(raw, now), acts[..j]);
      var second := Run(u, Boot(raw, now), acts);
      && Rise(u, first, acts[j]) && Rise(u, second, a)
      && first.alarm.bus.generation == second.alarm.bus.generation
      && Alarm.IsArmed(first.alarm.bus.mode) && Alarm.IsArmed(second.alarm.bus.mode)
  {
    AttemptNeedsRise(u, Run(u, Boot(raw, now), acts), a);
    j := RisesHaveCause(u, raw, now, acts);
  }

  // ---- and does come when it should ----

  /** An event belonging to generation g was raised before the end of the run. */
  ghost predicate RaisedBefore(u: Setup, s: System, acts: seq<Act>, g: nat) {
    exists i :: RaisedAt(u, s, acts, i, g)
  }

  ghost predicate RaisedAt(u: Setup, s: System, acts: seq<Act>, i: int, g: nat) {
    && 0 <= i < |acts|
    && Attempted(u, Run(u, s, acts[..i]), acts[i])
    && Run(u, s, acts[..i]).alarm.bus.generation == g
  }

  lemma RaisedInPrefix(u: Setup, s: System, acts: seq<Act>, n: nat, g: nat)
    requires n <= |acts| && RaisedBefore(u, s, acts[..n], g)
    ensures RaisedBefore(u, s, acts, g)
  {
    var i :| RaisedAt(u, s, acts[..n], i, g);
    assert acts[..n][..i] == acts[..i];
    assert RaisedAt(u, s, acts, i, g);
  }

  lemma AlertedOnlyByAttempt(u: Setup, s: System, a: Act)
    requires Move(u, s, a).tracker.alerted
    ensures var t := Move(u, s, a).tracker;
      if a.Reading? then
        && t.seen == s.alarm.bus.generation
        && (Attempted(u, s, a) || (s.tracker.alerted && s.tracker.seen == t.seen))
      else t == s.tracker
  {
    hide Alarm.Step;
  }

  lemma {:induction false} AlertedHasCause(u: Setup, raw: bool, now: int, acts: seq<Act>)
    ensures var s := Run(u, Boot(raw, now), acts);
      s.tracker.alerted ==> RaisedBefore(u, Boot(raw, now), acts, s.tracker.seen)
  {
    hide Move;
    hide Attempted;
    if acts != [] && Run(u, Boot(raw, now), acts).tracker.alerted {
      var n := |acts| - 1;
      var s0 := Boot(raw, now);
      var s := Run(u, s0, acts[..n]);
      AlertedHasCause(u, raw, now, acts[..n]);
      AlertedOnlyByAttempt(u, s, acts[n]);
      if acts[n].Reading? && Attempted(u, s, acts[n]) {
        assert RaisedAt(u, s0, acts, n, s.alarm.bus.generation);
      } else {
        RaisedInPrefix(u, s0, acts, n, s.tracker.seen);
      }
    }
  }

  lemma RiseCounts(u: Setup, s: System, a: Act)
    requires Rise(u, s, a)
    ensures var t := Move(u, s, a).tracker; 0 < t.rises && t.seen == s.alarm.bus.generation
  {
  }

  lemma {:induction false} TrackerWaits(u: Setup, s: System, acts: seq<Act>)
    requires forall k :: 0 <= k < |acts| ==> acts[k].Bus?
    ensures Run(u, s, acts).tracker == s.tracker
  {
    hide Alarm.Step;
    if acts != [] {
      TrackerWaits(u, s, acts[..|acts| - 1]);
    }
  }

  lemma PreviousRiseCounts(u: Setup, s: System, acts: seq<Act>, g: nat)
    requires PreviousRose(u, s, acts, g)
    ensures var t := Run(u, s, acts).tracker; 0 < t.rises && t.seen == g
  {
    hide Alarm.Step;
    hide Rise;
    hide Move;
    var j :| RoseAt(u, s, acts, j, g);
    RiseCounts(u, Run(u, s, acts[..j]), acts[j]);
    assert acts[..j + 1][..j] == acts[..j];
    RunSplits(u, s, acts, j + 1);
    TrackerWaits(u, Run(u, s, acts[..j + 1]), acts[j + 1..]);
  }

  lemma AttemptIfDue(u: Setup, s: System, a: Act)
    requires s.tracker.seen == s.alarm.bus.generation
    ensures Attempted(u, s, a) <==>
      && Rise(u, s, a) && !TakesBaseline(Env(s, a.stale), a.co2)
      && 0 < s.tracker.rises && !s.tracker.alerted
  {
  }

  /** A reading raises the event exactly when it and the reading before it are rises of
      the current generation, it is not itself taken as the baseline, and the generation
      has not had its event. */
  lemma EventExactly(u: Setup, raw: bool, now: int, acts: seq<Act>, a: Act)
    requires ValidSettings(u.co2)
    ensures var s0 := Boot(raw, now);
      var s := Run(u, s0, acts);
      var g := s.alarm.bus.generation;
      Attempted(u, s, a) <==>
        (&& Rise(u, s, a) && !TakesBaseline(Env(s, a.stale), a.co2)
         && PreviousRose(u, s0, acts, g) && !RaisedBefore(u, s0, acts, g))
  {
    hide Alarm.Step;
    hide Rise;
    hide Move;
    hide Attempted;
    hide Qualifies;
    hide TakesBaseline;
    hide Boot;
    var s0 := Boot(raw, now);
    var s := Run(u, s0, acts);
    var g := s.alarm.bus.generation;
    if Attempted(u, s, a) {
      AttemptNeedsRise(u, s, a);
      AttemptIfDue(u, s, a);
      var j := RisesHaveCause(u, raw, now, acts);
      assert RoseAt(u, s0, acts, j, g);
      if RaisedBefore(u, s0, acts, g) {
        var i :| RaisedAt(u, s0, acts, i, g);
        assert (acts + [a])[..i] == acts[..i] && (acts + [a])[..|acts|] == acts;
        OneEventPerGeneration(u, raw, now, acts + [a], i, |acts|);
        assert false;
      }
    } else if PreviousRose(u, s0, acts, g) {
      PreviousRiseCounts(u, s0, acts, g);
      AttemptIfDue(u, s, a);
      AlertedHasCause(u, raw, now, acts);
    }
  }
}
