/** The CO2 event in numbers: readings, the baseline in force, and when the event comes. */
module Co2Numbers {
  import opened Co2
  import opened Co2Proofs

  /** The baseline in force after a run: what the bus was armed with, or was set to, or the
      first positive reading of an armed bus that had none. */
  function Baseline(u: Setup, s: System, acts: seq<Act>): nat {
    if acts == [] then s.alarm.bus.baseline
    else
      var before := acts[..|acts| - 1];
      var was := Baseline(u, s, before);
      match acts[|acts| - 1]
      case Reading(co2, _) =>
        if was == 0 && Alarm.IsArmed(Run(u, s, before).alarm.bus.mode) then co2 else was
      case Bus(SetBaseline(co2)) => co2
      case Bus(Poll(_, _, co2)) => if Arms(u, s, acts) then co2 else was
      case Bus(ForceEmpty(_, _, _, co2)) => if Arms(u, s, acts) then co2 else was
      case _ => was
  }

  /** The last act of the run starts an armed generation. */
  predicate Arms(u: Setup, s: System, acts: seq<Act>)
    requires acts != []
  {
    Run(u, s, acts[..|acts| - 1]).alarm.bus.generation < Run(u, s, acts).alarm.bus.generation
  }

  lemma StepBaseline(c: Alarm.Config, f: Alarm.Firmware, cmd: Alarm.Command)
    ensures var g := Alarm.Step(c, f, cmd).0;
      g.bus.baseline ==
        (match cmd
         case SetBaseline(co2) => co2
         case Poll(_, _, co2) => if f.bus.generation < g.bus.generation then co2 else f.bus.baseline
         case ForceEmpty(_, _, _, co2) => if f.bus.generation < g.bus.generation then co2 else f.bus.baseline
         case _ => f.bus.baseline)
  {
  }

  lemma {:induction false} BaselineInForce(u: Setup, s: System, acts: seq<Act>)
    ensures Run(u, s, acts).alarm.bus.baseline == Baseline(u, s, acts)
  {
    hide Alarm.Step;
    if acts != [] {
      var before := acts[..|acts| - 1];
      BaselineInForce(u, s, before);
      if acts[|acts| - 1].Bus? {
        StepBaseline(u.config, Run(u, s, before).alarm, acts[|acts| - 1].cmd);
      }
    }
  }

  /** The oldest of the last `window` readings. */
  function Oldest(u: Setup, r: seq<nat>): nat
    requires ValidSettings(u.co2) && r != []
  {
    r[if |r| <= u.co2.window then 0 else |r| - u.co2.window]
  }

  /** A fresh reading of an armed bus, not the first of all, that lies the threshold above
      the baseline in force and, where asked for, above the oldest of the last readings. */
  predicate HighReading(u: Setup, s: System, acts: seq<Act>, a: Act)
    requires ValidSettings(u.co2)
  {
    && a.Reading? && !a.stale
    && Alarm.IsArmed(Run(u, s, acts).alarm.bus.mode)
    && Readings(acts) != []
    && a.co2 - Baseline(u, s, acts + [a]) >= u.co2.threshold
    && (u.co2.requireRising ==> a.co2 > Oldest(u, Readings(acts) + [a.co2]))
  }

  lemma ReadingsOneMore(acts: seq<Act>, a: Act)
    requires a.Reading?
    ensures Readings(acts + [a]) == Readings(acts) + [a.co2]
  {
    assert (acts + [a])[..|acts|] == acts;
  }

  lemma BaselineOneMore(u: Setup, s: System, acts: seq<Act>, a: Act)
    requires a.Reading?
    ensures Baseline(u, s, acts + [a]) == BaselineAfter(Env(Run(u, s, acts), a.stale), a.co2)
  {
    assert (acts + [a])[..|acts|] == acts;
    BaselineInForce(u, s, acts);
  }

  lemma WindowEnds(r: seq<nat>, u: Setup)
    requires ValidSettings(u.co2) && r != []
    ensures var w := LastN(r, u.co2.window);
      && w != [] && (2 <= |w| <==> 2 <= |r|)
      && (RollingDelta(w) > 0 <==> r[|r| - 1] > Oldest(u, r))
  {
  }

  /** The tracker's condition is exactly that. */
  lemma HighExactly(u: Setup, raw: bool, now: int, acts: seq<Act>, a: Act)
    requires ValidSettings(u.co2)
    ensures Rise(u, Run(u, Boot(raw, now), acts), a) <==> HighReading(u, Boot(raw, now), acts, a)
  {
    if a.Reading? {
      var s0 := Boot(raw, now);
      var r := Readings(acts);
      WindowIsLastReadings(u, s0, acts);
      LastNAgain(r, a.co2, u.co2.window);
      BaselineOneMore(u, s0, acts, a);
      WindowEnds(r + [a.co2], u);
      hide Run, Baseline, BaselineAfter, Oldest, RollingDelta, LastN, Boot, Readings;
    }
  }

  /** Act j is the last reading of the run, and a high one of generation g. */
  ghost predicate HighAt(u: Setup, s: System, acts: seq<Act>, j: int, g: nat)
    requires ValidSettings(u.co2)
  {
    && 0 <= j < |acts|
    && HighReading(u, s, acts[..j], acts[j])
    && Run(u, s, acts[..j]).alarm.bus.generation == g
    && forall k :: j < k < |acts| ==> acts[k].Bus?
  }

  ghost predicate HighJustBefore(u: Setup, s: System, acts: seq<Act>, g: nat)
    requires ValidSettings(u.co2)
  {
    exists j :: HighAt(u, s, acts, j, g)
  }

  /** Two high readings of one generation in a row, the second not taken as the baseline. */
  ghost predicate SecondHigh(u: Setup, s: System, acts: seq<Act>, a: Act)
    requires ValidSettings(u.co2)
  {
    && HighReading(u, s, acts, a)
    && !(Baseline(u, s, acts) == 0 && a.co2 > 0)
    && HighJustBefore(u, s, acts, Run(u, s, acts).alarm.bus.generation)
  }

  ghost predicate SecondHighAt(u: Setup, s: System, acts: seq<Act>, i: int, g: nat)
    requires ValidSettings(u.co2)
  {
    0 <= i < |acts| && SecondHigh(u, s, acts[..i], acts[i]) && Run(u, s, acts[..i]).alarm.bus.generation == g
  }

  lemma HighBeforeExactly(u: Setup, raw: bool, now: int, acts: seq<Act>, g: nat)
    requires ValidSettings(u.co2)
    ensures PreviousRose(u, Boot(raw, now), acts, g) <==> HighJustBefore(u, Boot(raw, now), acts, g)
  {
    hide Rise, HighReading, Run;
    var s0 := Boot(raw, now);
    hide Boot;
    forall j | 0 <= j < |acts| ensures RoseAt(u, s0, acts, j, g) <==> HighAt(u, s0, acts, j, g) {
      HighExactly(u, raw, now, acts[..j], acts[j]);
    }
    if PreviousRose(u, s0, acts, g) {
      var j :| RoseAt(u, s0, acts, j, g);
      assert HighAt(u, s0, acts, j, g);
    }
    if HighJustBefore(u, s0, acts, g) {
      var j :| HighAt(u, s0, acts, j, g);
      assert RoseAt(u, s0, acts, j, g);
    }
  }

  lemma AttemptedInNumbers(u: Setup, raw: bool, now: int, acts: seq<Act>, a: Act)
    requires ValidSettings(u.co2)
    ensures var s0 := Boot(raw, now);
      Attempted(u, Run(u, s0, acts), a) <==>
        SecondHigh(u, s0, acts, a) && !RaisedBefore(u, s0, acts, Run(u, s0, acts).alarm.bus.generation)
  {
    var s0 := Boot(raw, now);
    EventExactly(u, raw, now, acts, a);
    HighExactly(u, raw, now, acts, a);
    HighBeforeExactly(u, raw, now, acts, Run(u, s0, acts).alarm.bus.generation);
    BaselineInForce(u, s0, acts);
    hide Boot, Run, Rise, Baseline, HighJustBefore, PreviousRose, RaisedBefore, Attempted;
    assert HighReading(u, s0, acts, a) ==> Alarm.IsArmed(Run(u, s0, acts).alarm.bus.mode);
    hide HighReading;
  }

  lemma RaisedIfSecondHigh(u: Setup, raw: bool, now: int, acts: seq<Act>, i: int, g: nat)
    requires ValidSettings(u.co2) && SecondHighAt(u, Boot(raw, now), acts, i, g)
    ensures RaisedBefore(u, Boot(raw, now), acts, g)
  {
    var s0 := Boot(raw, now);
    AttemptedInNumbers(u, raw, now, acts[..i], acts[i]);
    hide Boot, Run, Attempted, SecondHigh;
    if Attempted(u, Run(u, s0, acts[..i]), acts[i]) {
      assert RaisedAt(u, s0, acts, i, g);
    } else {
      RaisedInPrefix(u, s0, acts, i, g);
    }
  }

  /** An event is attempted exactly at the first second high reading of a generation:
      both readings are fresh, the threshold above the baseline then in force and, where
      asked for, rising; and no earlier reading of the generation already was such a one. */
  lemma EventInNumbers(u: Setup, raw: bool, now: int, acts: seq<Act>, a: Act)
    requires ValidSettings(u.co2)
    ensures var s0 := Boot(raw, now);
      var g := Run(u, s0, acts).alarm.bus.generation;
      Attempted(u, Run(u, s0, acts), a) <==>
        SecondHigh(u, s0, acts, a) && forall i :: !SecondHighAt(u, s0, acts, i, g)
  {
    var s0 := Boot(raw, now);
    var g := Run(u, s0, acts).alarm.bus.generation;
    AttemptedInNumbers(u, raw, now, acts, a);
    hide Boot, Run, Attempted, SecondHigh;
    if i :| SecondHighAt(u, s0, acts, i, g) {
      RaisedIfSecondHigh(u, raw, now, acts, i, g);
    }
    if RaisedBefore(u, s0, acts, g) {
      var i :| RaisedAt(u, s0, acts, i, g);
      AttemptedInNumbers(u, raw, now, acts[..i], acts[i]);
      assert SecondHighAt(u, s0, acts, i, g);
    }
  }
}
