/** evaluate_presence_trigger of main/sensor_ld2412.c: a debounced, sustained radar target
    raises at most one event per run and armed generation. */
module Presence {
  /** The Kconfig values, with the debounce in milliseconds. */
  datatype Settings = Settings(sustain: nat, armedSustain: nat, debounce: nat, maxDistance: nat, minEnergy: nat)

  /** One radar frame as the trigger sees it. `room` tells whether the distress queue
      accepts an event. */
  datatype Sighting = Sighting(
    now: int, target: bool, distance: nat, energy: nat,
    generation: nat, armed: bool, room: bool)

  /** The file-scope variables; 0 stands for "not set" in the two times. */
  datatype Detector = Detector(since: int, dropped: int, reported: nat, seen: nat, presentAtArm: bool)

  const INITIAL := Detector(0, 0, 0, 0, false)

  /** A new armed generation: the dwell of a target already there restarts. */
  function NoteGeneration(d: Detector, s: Sighting): Detector {
    if s.generation == d.seen then d
    else
      d.(seen := s.generation, reported := 0, presentAtArm := s.target,
         since := if s.target then s.now else d.since,
         dropped := if s.target then 0 else d.dropped)
  }

  /** The target timers. */
  function NoteTarget(st: Settings, d: Detector, s: Sighting): Detector {
    if s.target then d.(dropped := 0, since := if d.since == 0 then s.now else d.since)
    else if d.dropped == 0 then d.(dropped := s.now)
    else if s.now - d.dropped < st.debounce * 1000 then d
    else d.(since := 0, dropped := 0, reported := 0)
  }

  function Required(st: Settings, d: Detector): nat {
    if d.presentAtArm then st.armedSustain else st.sustain
  }

  /** Whether the frame qualifies for an event. */
  predicate Qualifies(st: Settings, d: Detector, s: Sighting) {
    && s.target && s.armed && s.generation != 0 && d.reported != s.generation
    && !(st.maxDistance < 9999 && s.distance > st.maxDistance)
    && !(st.minEnergy > 0 && s.energy < st.minEnergy)
    && (s.now - d.since) / 1_000_000 >= Required(st, d)
  }

  function Timers(st: Settings, d: Detector, s: Sighting): Detector {
    NoteTarget(st, NoteGeneration(d, s), s)
  }

  predicate Accepts(st: Settings, d: Detector, s: Sighting) {
    Qualifies(st, Timers(st, d, s), s) && s.room
  }

  function Step(st: Settings, d: Detector, s: Sighting): Detector {
    var d1 := Timers(st, d, s);
    if Accepts(st, d, s) then d1.(reported := s.generation) else d1
  }

  /** The variables updated in place. */
  class PresenceTrigger {
    var targetSince: int
    var targetDroppedAt: int
    var reportedGeneration: nat
    var seenArmedGeneration: nat
    var targetWasPresentAtArm: bool

    function View(): Detector
      reads this
    {
      Detector(targetSince, targetDroppedAt, reportedGeneration, seenArmedGeneration, targetWasPresentAtArm)
    }

    constructor ()
      ensures View() == INITIAL
    {
      targetSince, targetDroppedAt, reportedGeneration, seenArmedGeneration := 0, 0, 0, 0;
      targetWasPresentAtArm := false;
    }

    method Evaluate(st: Settings, s: Sighting) returns (accepted: bool)
      requires 0 < s.now
      modifies this
      ensures View() == Step(st, old(View()), s) && accepted == Accepts(st, old(View()), s)
    {
      accepted := false;
      if s.generation != seenArmedGeneration {
        seenArmedGeneration := s.generation;
        reportedGeneration := 0;
        targetWasPresentAtArm := s.target;
        if s.target {
          targetSince := s.now;
          targetDroppedAt := 0;
        }
      }
      if s.target {
        targetDroppedAt := 0;
        if targetSince == 0 {
          targetSince := s.now;
        }
      } else {
        if targetDroppedAt == 0 {
          targetDroppedAt := s.now;
          return;
        }
        if s.now - targetDroppedAt < st.debounce * 1000 {
          return;
        }
        targetSince := 0;
        targetDroppedAt := 0;
        reportedGeneration := 0;
        return;
      }
      if !s.armed || s.generation == 0 || reportedGeneration == s.generation {
        return;
      }
      if st.maxDistance < 9999 && s.distance > st.maxDistance {
        return;
      }
      if st.minEnergy > 0 && s.energy < st.minEnergy {
        return;
      }
      var targetS := (s.now - targetSince) / 1_000_000;
      var requiredS := if targetWasPresentAtArm then st.armedSustain else st.sustain;
      if targetS >= requiredS {
        if s.room {
          reportedGeneration := s.generation;
          accepted := true;
        }
      }
    }
  }
}
