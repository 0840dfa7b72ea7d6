/** main/co2_tracker.c: a ring buffer of readings and a trigger on consecutive rises. */
module Co2 {
  datatype Settings = Settings(window: nat, threshold: nat, requireRising: bool)

  predicate ValidSettings(st: Settings) { 2 <= st.window }

  /** `window` holds the buffered readings, oldest first. */
  datatype Tracker = Tracker(window: seq<nat>, seen: nat, rises: nat, alerted: bool)

  const INITIAL := Tracker([], 0, 0, false)

  /** What a tracker iteration reads of the rest of the firmware. */
  datatype Surroundings = Surroundings(generation: nat, armed: bool, baseline: nat, stale: bool)

  function LastN(s: seq<nat>, n: nat): seq<nat> {
    if |s| <= n then s else s[|s| - n..]
  }

  /** The int16 the telemetry keeps. */
  function Saturate(x: int): int {
    if x > 32767 then 32767 else if x < -32768 then -32768 else x
  }

  function Minus(a: int, b: int): int { a - b }

  function NoteGeneration(t: Tracker, env: Surroundings): Tracker {
    if env.generation == t.seen then t else t.(seen := env.generation, rises := 0, alerted := false)
  }

  /** The first reading of an armed bus without a baseline becomes the baseline. */
  predicate TakesBaseline(env: Surroundings, co2: nat) {
    env.armed && env.baseline == 0 && co2 > 0
  }

  function BaselineAfter(env: Surroundings, co2: nat): nat {
    if TakesBaseline(env, co2) then co2 else env.baseline
  }

  /** Rolling delta: newest minus oldest buffered reading. */
  function RollingDelta(window: seq<nat>): int
    requires window != []
  {
    Saturate(Minus(window[|window| - 1], window[0]))
  }

  /** The reading counts as a rise. */
  predicate Qualifies(st: Settings, t: Tracker, env: Surroundings, co2: nat) {
    var window := LastN(t.window + [co2], st.window);
    && 2 <= |window|
    && env.armed && Minus(co2, BaselineAfter(env, co2)) >= st.threshold && !env.stale
    && (st.requireRising ==> RollingDelta(window) > 0)
  }

  /** The tracker after a reading, before the trigger. */
  function Noted(st: Settings, t: Tracker, env: Surroundings, co2: nat): Tracker {
    var t1 := NoteGeneration(t, env);
    t1.(window := LastN(t.window + [co2], st.window),
        rises := if TakesBaseline(env, co2) then 0 else t1.rises)
  }

  predicate Attempts(st: Settings, t: Tracker, env: Surroundings, co2: nat) {
    var t1 := Noted(st, t, env, co2);
    Qualifies(st, t, env, co2) && !t1.alerted && t1.rises + 1 >= 2
  }

  function Step(st: Settings, t: Tracker, env: Surroundings, co2: nat): Tracker {
    var t1 := Noted(st, t, env, co2);
    if |t1.window| < 2 then t1
    else if Qualifies(st, t, env, co2) then
      t1.(rises := t1.rises + 1, alerted := t1.alerted || t1.rises + 1 >= 2)
    else t1.(rises := 0, alerted := t1.alerted && env.armed)
  }

  /** Readings in the ring, oldest first, when the next goes to slot idx. */
  function Ring(data: seq<nat>, idx: nat, count: nat): (r: seq<nat>)
    requires idx < |data| && count <= |data| && (count < |data| ==> idx == count)
    ensures |r| == count
  {
    data[idx..count] + data[..idx]
  }

  function NextSlot(idx: nat, w: nat): (next: nat)
    requires idx < w
    ensures next == if idx + 1 == w then 0 else idx + 1
  {
    (idx + 1) % w
  }

  lemma RingTakes(data: seq<nat>, idx: nat, count: nat, x: nat)
    requires idx < |data| && count <= |data| && (count < |data| ==> idx == count)
    ensures var n := if count < |data| then count + 1 else count;
      Ring(data[idx := x], NextSlot(idx, |data|), n) == LastN(Ring(data, idx, count) + [x], |data|)
  {
    hide NextSlot;
    var n := if count < |data| then count + 1 else count;
    var after := LastN(Ring(data, idx, count) + [x], |data|);
    assert |after| == n;
    forall k | 0 <= k < n ensures Ring(data[idx := x], NextSlot(idx, |data|), n)[k] == after[k] {
    }
  }

  lemma NewestIsLast(window: seq<nat>, x: nat, n: nat)
    requires 0 < n
    ensures var w := LastN(window + [x], n); w != [] && w[|w| - 1] == x
  {
  }

  /** The slot of the oldest reading. */
  function OldestSlot(idx: nat, count: nat, w: nat): (slot: nat)
    requires idx < w && 0 < count <= w && (count < w ==> idx == count)
    ensures slot == if count < w then 0 else idx
  {
    (idx + w - count) % w
  }

  /** The file-scope variables of the task. */
  class Co2Task {
    const buffer: array<nat>
    var idx: nat
    var count: nat
    var seenArmedGeneration: nat
    var consecutiveRise: nat
    var alertedThisArmed: bool

    ghost predicate Valid()
      reads this
    {
      && 2 <= buffer.Length && idx < buffer.Length && count <= buffer.Length
      && (count < buffer.Length ==> idx == count)
    }

    ghost function Window(): seq<nat>
      reads this, buffer
      requires Valid()
    {
      Ring(buffer[..], idx, count)
    }

    ghost function View(): Tracker
      reads this, buffer
      requires Valid()
    {
      Tracker(Window(), seenArmedGeneration, consecutiveRise, alertedThisArmed)
    }

    constructor (st: Settings)
      requires ValidSettings(st)
      ensures Valid() && buffer.Length == st.window && View() == INITIAL && fresh(buffer)
    {
      buffer := new nat[st.window](i => 0);
      idx, count, seenArmedGeneration, consecutiveRise := 0, 0, 0, 0;
      alertedThisArmed := false;
    }

    /** Overwrite the oldest slot once the buffer is full. */
    method Store(co2: nat)
      requires Valid()
      modifies this`idx, this`count, buffer
      ensures Valid() && 0 < count
      ensures Window() == LastN(old(Window()) + [co2], buffer.Length)
    {
      RingTakes(buffer[..], idx, count, co2);
      ghost var after := buffer[..][idx := co2];
      buffer[idx] := co2;
      assert buffer[..] == after;
      idx := NextSlot(idx, buffer.Length);
      if count < buffer.Length {
        count := count + 1;
      }
    }

    /** Count the rise and decide whether to raise the event. */
    method Judge(trigger: bool, armed: bool) returns (attempted: bool)
      modifies this`consecutiveRise, this`alertedThisArmed
      ensures attempted == (trigger && !old(alertedThisArmed) && old(consecutiveRise) + 1 >= 2)
      ensures consecutiveRise == if trigger then old(consecutiveRise) + 1 else 0
      ensures alertedThisArmed ==
              if trigger then old(alertedThisArmed) || old(consecutiveRise) + 1 >= 2
              else old(alertedThisArmed) && armed
    {
      attempted := false;
      if trigger {
        consecutiveRise := consecutiveRise + 1;
        if !alertedThisArmed && consecutiveRise >= 2 {
          attempted := true;
          alertedThisArmed := true;
        }
      } else {
        consecutiveRise := 0;
        if !armed {
          alertedThisArmed := false;
        }
      }
    }

    /** The trigger condition of the reading just stored. */
    method Condition(st: Settings, env: Surroundings, co2: nat, baseline: nat) returns (trigger: bool)
      requires Valid() && 2 <= count && Window()[count - 1] == co2
      ensures trigger ==
              (env.armed && Minus(co2, baseline) >= st.threshold && !env.stale &&
               (st.requireRising ==> RollingDelta(Window()) > 0))
    {
      var oldest := OldestSlot(idx, count, buffer.Length);
      assert buffer[oldest] == Window()[0];
      var delta := Saturate(Minus(co2, buffer[oldest]));
      trigger := env.armed && Minus(co2, baseline) >= st.threshold && !env.stale;
      if trigger && st.requireRising && delta <= 0 {
        trigger := false;
      }
    }

    /** One reading; the new baseline and whether an event is attempted. */
    method Iterate(st: Settings, env: Surroundings, co2: nat) returns (baseline: nat, attempted: bool)
      requires Valid() && st.window == buffer.Length
      modifies this, buffer
      ensures Valid() && View() == Step(st, old(View()), env, co2)
      ensures baseline == BaselineAfter(env, co2) && attempted == Attempts(st, old(View()), env, co2)
    {
      hide LastN;
      hide RollingDelta;
      hide Ring;
      NewestIsLast(Window(), co2, buffer.Length);
      attempted := false;
      baseline := env.baseline;
      if env.generation != seenArmedGeneration {
        seenArmedGeneration := env.generation;
        consecutiveRise := 0;
        alertedThisArmed := false;
      }
      Store(co2);
      if env.armed && baseline == 0 && co2 > 0 {
        baseline := co2;
        consecutiveRise := 0;
      }
      assert |Window()| == count;
      if count >= 2 {
        var trigger := Condition(st, env, co2, baseline);
        attempted := Judge(trigger, env.armed);
      }
    }
  }
}
