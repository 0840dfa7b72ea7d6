/** The presence trigger against a specification on whole radar histories. */
module PresenceProofs {
  import opened Presence

  /** A history as the firmware produces it: positive, monotone clock and generation. */
  ghost predicate Timely(h: seq<Sighting>) {
    && (forall k :: 0 <= k < |h| ==> 0 < h[k].now)
    && (forall j, k :: 0 <= j <= k < |h| ==> h[j].now <= h[k].now && h[j].generation <= h[k].generation)
  }

  function After(st: Settings, h: seq<Sighting>): Detector {
    if h == [] then INITIAL else Step(st, After(st, h[..|h| - 1]), h[|h| - 1])
  }

  /** Frame i raised an event that the queue took. */
  predicate Accepted(st: Settings, h: seq<Sighting>, i: nat)
    requires i < |h|
  {
    Accepts(st, After(st, h[..i]), h[i])
  }

  /** Frames j..k all lack a target and span the debounce time. */
  predicate DropBlock(st: Settings, h: seq<Sighting>, j: int, k: int)
    requires 0 <= j <= k < |h|
  {
    (forall m :: j <= m <= k ==> !h[m].target) && h[k].now - h[j].now >= st.debounce * 1000
  }

  /** The target was lost for the debounce time somewhere in frames lo..hi-1. */
  predicate Dropped(st: Settings, h: seq<Sighting>, lo: int, hi: int)
    requires 0 <= lo && hi <= |h|
  {
    exists j, k :: lo <= j <= k < hi && DropBlock(st, h, j, k)
  }

  /** The frames at which the variables were last set; -1 for never. */
  datatype Marks = Marks(since: int, dropped: int, generation: int)

  /** The marks move with the detector d as frame n, s, arrives. */
  function MarkStep(st: Settings, d: Detector, m: Marks, s: Sighting, n: nat): Marks {
    var m1 := if s.generation == d.seen then m
              else Marks(if s.target then n else m.since, if s.target then -1 else m.dropped, n);
    var d1 := NoteGeneration(d, s);
    if s.target then m1.(dropped := -1, since := if d1.since == 0 then n else m1.since)
    else if d1.dropped == 0 then m1.(dropped := n)
    else if s.now - d1.dropped < st.debounce * 1000 then m1
    else m1.(since := -1, dropped := -1)
  }

  function MarksAfter(st: Settings, h: seq<Sighting>): Marks {
    if h == [] then Marks(-1, -1, -1)
    else MarkStep(st, After(st, h[..|h| - 1]), MarksAfter(st, h[..|h| - 1]), h[|h| - 1], |h| - 1)
  }

  /** The run of the target in progress: it began with a target frame and was not lost. */
  ghost predicate RunOk(st: Settings, h: seq<Sighting>, d: Detector, m: Marks) {
    && (d.since == 0 <==> m.since == -1)
    && -1 <= m.since < |h|
    && (0 <= m.since ==> h[m.since].target && d.since == h[m.since].now && !Dropped(st, h, m.since, |h|))
  }

  /** The drop in progress: every frame since it began lacks a target. */
  ghost predicate DropOk(h: seq<Sighting>, d: Detector, m: Marks) {
    && (d.dropped == 0 <==> m.dropped == -1)
    && -1 <= m.dropped < |h|
    && (0 <= m.dropped ==>
          && d.dropped == h[m.dropped].now
          && (forall k :: m.dropped <= k < |h| ==> !h[k].target)
          && (0 <= m.since ==> m.since < m.dropped && h[m.dropped - 1].target))
    && (m.dropped == -1 && 0 <= m.since ==> h != [] && h[|h| - 1].target)
  }

  /** The armed generation in progress and its first frame. */
  ghost predicate GenerationOk(h: seq<Sighting>, d: Detector, m: Marks) {
    && -1 <= m.generation < |h|
    && (h != [] ==> d.seen == h[|h| - 1].generation)
    && (h == [] ==> d.seen == 0)
    && (m.generation == -1 ==> d.seen == 0 && !d.presentAtArm)
    && (0 <= m.generation ==>
          && FirstFrame(h, m.generation, d.seen)
          && d.presentAtArm == h[m.generation].target
          && (d.presentAtArm && 0 <= m.since ==> m.generation <= m.since))
  }

  /** Frame g is the first of its generation. */
  ghost predicate FirstFrame(h: seq<Sighting>, g: int, generation: nat) {
    && 0 <= g < |h| && h[g].generation == generation
    && forall k :: 0 <= k < g ==> h[k].generation < generation
  }

  ghost predicate Tracks(st: Settings, h: seq<Sighting>, d: Detector, m: Marks) {
    RunOk(st, h, d, m) && DropOk(h, d, m) && GenerationOk(h, d, m)
  }

  /** A frame with a target ends no block; one without ends blocks that start late. */
  lemma DroppedGrows(st: Settings, h: seq<Sighting>, s: Sighting, lo: nat)
    requires lo <= |h|
    ensures Dropped(st, h, lo, |h|) ==> Dropped(st, h + [s], lo, |h|)
    ensures Dropped(st, h + [s], lo, |h|) ==> Dropped(st, h, lo, |h|)
    ensures s.target && Dropped(st, h + [s], lo, |h| + 1) ==> Dropped(st, h, lo, |h|)
  {
    assert forall k :: 0 <= k < |h| ==> (h + [s])[k] == h[k];
    if Dropped(st, h, lo, |h|) {
      var j, k :| lo <= j <= k < |h| && DropBlock(st, h, j, k);
      assert DropBlock(st, h + [s], j, k);
    }
    if Dropped(st, h + [s], lo, |h|) {
      var j, k :| lo <= j <= k < |h| && DropBlock(st, h + [s], j, k);
      assert DropBlock(st, h, j, k);
    }
    if s.target && Dropped(st, h + [s], lo, |h| + 1) {
      var j, k :| lo <= j <= k < |h| + 1 && DropBlock(st, h + [s], j, k);
      assert k < |h| by { assert (h + [s])[|h|] == s; }
      assert DropBlock(st, h, j, k);
    }
  }

  /** While the debounce has not run out, no block ends at the new frame. */
  lemma NoBlockYet(st: Settings, h: seq<Sighting>, s: Sighting, lo: nat, start: nat)
    requires Timely(h + [s]) && 0 < st.debounce && lo <= start <= |h| && 0 < start
    requires !Dropped(st, h, lo, |h|)
    requires (h + [s])[start - 1].target
    requires s.now - (h + [s])[start].now < st.debounce * 1000
    ensures !Dropped(st, h + [s], lo, |h| + 1)
  {
    var g := h + [s];
    assert forall k :: 0 <= k < |h| ==> g[k] == h[k];
    assert forall j, k :: lo <= j <= k < |h| && DropBlock(st, g, j, k) ==> DropBlock(st, h, j, k);
    forall j, k | lo <= j <= k < |g| ensures !DropBlock(st, g, j, k) {
      if k == |h| {
        if j < start { assert g[start - 1].target; } else { assert g[start].now <= g[j].now; }
      }
    }
  }

  lemma TimelyPrefix(h: seq<Sighting>, n: nat)
    requires Timely(h) && n <= |h|
    ensures Timely(h[..n])
  {
  }

  /** Blocks of a prefix are blocks of the whole, and the other way round. */
  lemma PrefixBlocks(st: Settings, h: seq<Sighting>, n: nat, lo: nat)
    requires n <= |h|
    ensures Dropped(st, h[..n], lo, n) <==> Dropped(st, h, lo, n)
  {
    assert forall k :: 0 <= k < n ==> h[..n][k] == h[k];
    assert forall j, k :: lo <= j <= k < n ==> (DropBlock(st, h, j, k) <==> DropBlock(st, h[..n], j, k));
  }

  lemma GenerationStep(st: Settings, h: seq<Sighting>, s: Sighting, d: Detector, m: Marks)
    requires Timely(h + [s]) && GenerationOk(h, d, m) && m.since < |h|
    ensures GenerationOk(h + [s], Timers(st, d, s), MarkStep(st, d, m, s, |h|))
  {
    var g := h + [s];
    assert g[|h|] == s && 0 < s.now;
    assert forall k :: 0 <= k < |h| ==> g[k] == h[k];
    assert forall k :: 0 <= k < |h| ==> g[k].generation <= g[|h| - 1].generation;
    if h != [] { assert g[|h| - 1].generation <= g[|h|].generation; }
  }

  lemma RunStep(st: Settings, h: seq<Sighting>, s: Sighting, d: Detector, m: Marks)
    requires 0 < st.debounce && Timely(h + [s]) && RunOk(st, h, d, m) && DropOk(h, d, m)
    ensures RunOk(st, h + [s], Timers(st, d, s), MarkStep(st, d, m, s, |h|))
  {
    var g := h + [s];
    assert g[|h|] == s && 0 < s.now;
    assert forall k :: 0 <= k < |h| ==> g[k] == h[k];
    var m1 := MarkStep(st, d, m, s, |h|);
    DroppedGrows(st, h, s, |h|);
    if 0 <= m1.since < |h| {
      if s.target { DroppedGrows(st, h, s, m.since); } else { NoBlockYet(st, h, s, m.since, m1.dropped); }
    }
    hide Dropped;
    hide Timely;
  }

  lemma DropStep(st: Settings, h: seq<Sighting>, s: Sighting, d: Detector, m: Marks)
    requires Timely(h + [s]) && RunOk(st, h, d, m) && DropOk(h, d, m)
    ensures DropOk(h + [s], Timers(st, d, s), MarkStep(st, d, m, s, |h|))
  {
    var g := h + [s];
    assert g[|h|] == s && 0 < s.now;
    assert forall k :: 0 <= k < |h| ==> g[k] == h[k];
    hide Dropped;
    hide Timely;
  }

  lemma TracksStep(st: Settings, h: seq<Sighting>, s: Sighting, d: Detector, m: Marks)
    requires 0 < st.debounce && Timely(h + [s]) && Tracks(st, h, d, m)
    ensures Tracks(st, h + [s], Step(st, d, s), MarkStep(st, d, m, s, |h|))
  {
    RunStep(st, h, s, d, m);
    DropStep(st, h, s, d, m);
    GenerationStep(st, h, s, d, m);
    var e := Timers(st, d, s);
    assert Step(st, d, s) == e.(reported := Step(st, d, s).reported);
    hide MarkStep;
    hide Timers;
    hide Timely;
    hide Dropped;
  }

  lemma OneMoreFrame(st: Settings, h: seq<Sighting>, n: nat)
    requires |h| == n + 1 && Timely(h)
    ensures Timely(h[..n]) && h[..n] + [h[n]] == h
    ensures After(st, h) == Step(st, After(st, h[..n]), h[n])
    ensures MarksAfter(st, h) == MarkStep(st, After(st, h[..n]), MarksAfter(st, h[..n]), h[n], n)
  {
    hide Step;
    hide MarkStep;
  }

  lemma {:induction false} TracksAlways(st: Settings, h: seq<Sighting>)
    requires 0 < st.debounce && Timely(h)
    ensures Tracks(st, h, After(st, h), MarksAfter(st, h))
  {
    if h != [] {
      hide *;
      var n := |h| - 1;
      OneMoreFrame(st, h, n);
      TracksAlways(st, h[..n]);
      TracksStep(st, h[..n], h[n], After(st, h[..n]), MarksAfter(st, h[..n]));
    }
  }

  /** What justifies an event at frame i: a run that started at frame s with a target, was
      never lost for the debounce time, and lasted long enough. If the target was already
      there in the first frame g of the armed generation, the run counts from no earlier
      than g and the longer time applies. */
  ghost predicate Justified(st: Settings, h: seq<Sighting>, i: nat, s: nat, g: nat)
    requires i < |h|
  {
    && s <= i && g <= i
    && FirstFrame(h, g, h[i].generation)
    && h[s].target && h[i].target && !Dropped(st, h, s, i + 1)
    && h[i].armed && 0 < h[i].generation
    && (if h[g].target then g <= s && h[i].now - h[s].now >= st.armedSustain * 1_000_000
        else h[i].now - h[s].now >= st.sustain * 1_000_000)
  }

  lemma AcceptFacts(st: Settings, d: Detector, s: Sighting)
    requires Accepts(st, d, s) && 0 < s.now
    ensures var e := Step(st, d, s);
      && s.target && s.armed && 0 < s.generation == e.seen && e.since != 0
      && s.now - e.since >= Required(st, e) * 1_000_000
      && (s.generation == d.seen ==> d.reported != s.generation)
  {
  }

  /** Every accepted event is justified. */
  lemma EventsAreJustified(st: Settings, h: seq<Sighting>, i: nat) returns (s: nat, g: nat)
    requires 0 < st.debounce && Timely(h) && i < |h| && Accepted(st, h, i)
    ensures Justified(st, h, i, s, g)
  {
    var p := h[..i + 1];
    assert p[..i] == h[..i] == p[..|p| - 1] && p[i] == h[i] && 0 < h[i].now;
    TimelyPrefix(h, i + 1);
    TracksAlways(st, p);
    assert After(st, p) == Step(st, After(st, h[..i]), h[i]);
    AcceptFacts(st, After(st, h[..i]), h[i]);
    var m := MarksAfter(st, p);
    JustifiedByMarks(st, h, i, After(st, p), m);
    s, g := m.since, m.generation;
    hide *;
  }

  lemma JustifiedByMarks(st: Settings, h: seq<Sighting>, i: nat, d: Detector, m: Marks)
    requires i < |h| && Tracks(st, h[..i + 1], d, m)
    requires h[i].target && h[i].armed && 0 < h[i].generation == d.seen && d.since != 0
    requires h[i].now - d.since >= Required(st, d) * 1_000_000
    ensures 0 <= m.since && 0 <= m.generation && Justified(st, h, i, m.since, m.generation)
  {
    var p := h[..i + 1];
    assert forall k :: 0 <= k <= i ==> p[k] == h[k];
    PrefixBlocks(st, h, i + 1, m.since);
    hide Dropped;
    hide DropOk;
  }

  /** Since its last accepted event in this generation the detector is either still marked
      as having reported, or has lost the target. */
  ghost predicate ReportOk(st: Settings, h: seq<Sighting>) {
    var d := After(st, h);
    forall a :: 0 <= a < |h| && Accepted(st, h, a) && h[a].generation == d.seen ==>
      d.reported == d.seen || Dropped(st, h, a + 1, |h|)
  }

  lemma {:induction false} ReportAlwaysOk(st: Settings, h: seq<Sighting>)
    requires 0 < st.debounce && Timely(h)
    ensures ReportOk(st, h)
  {
    if h != [] {
      var n := |h| - 1;
      var before := h[..n];
      OneMoreFrame(st, h, n);
      ReportAlwaysOk(st, before);
      TracksAlways(st, before);
      SeenIsLast(st, h);
      var d := After(st, h);
      if Accepted(st, h, n) { AcceptFacts(st, After(st, before), h[n]); AcceptMarks(st, After(st, before), h[n]); }
      hide After;
      hide Step;
      hide Dropped;
      hide Accepted;
      hide Tracks;
      hide ReportOk;
      hide Timely;
      forall a | 0 <= a < |h| && Accepted(st, h, a) && h[a].generation == d.seen
        ensures d.reported == d.seen || Dropped(st, h, a + 1, |h|)
      {
        if a < n { EarlierEvent(st, before, h[n], a); }
      }
      ReportOkMeans(st, h);
    }
  }

  lemma AcceptMarks(st: Settings, d: Detector, s: Sighting)
    requires Accepts(st, d, s)
    ensures Step(st, d, s).reported == s.generation
  {
  }

  lemma ReportOkMeans(st: Settings, h: seq<Sighting>)
    ensures ReportOk(st, h) <==>
      forall a :: 0 <= a < |h| && Accepted(st, h, a) && h[a].generation == After(st, h).seen ==>
        After(st, h).reported == After(st, h).seen || Dropped(st, h, a + 1, |h|)
  {
  }

  lemma EarlierEvent(st: Settings, h: seq<Sighting>, s: Sighting, a: nat)
    requires 0 < st.debounce && Timely(h + [s]) && ReportOk(st, h) && a < |h|
    requires Tracks(st, h, After(st, h), MarksAfter(st, h))
    requires Accepted(st, h + [s], a) && h[a].generation == s.generation
    ensures Step(st, After(st, h), s).reported == s.generation || Dropped(st, h + [s], a + 1, |h| + 1)
  {
    var g := h + [s];
    assert g[..a] == h[..a] && g[a] == h[a];
    assert forall k :: 0 <= k < |h| ==> g[k] == h[k];
    assert Accepted(st, h, a) && h[a].target;
    assert g[a].generation <= g[|h| - 1].generation <= g[|h|].generation;
    var d := After(st, h);
    assert d.seen == s.generation;
    hide After;
    DroppedGrows(st, h, s, a + 1);
    if Dropped(st, h, a + 1, |h|) {
      var j, k :| a + 1 <= j <= k < |h| && DropBlock(st, g, j, k);
    } else if Step(st, d, s).reported != s.generation {
      ReportLostWithTarget(st, h, s, a);
    }
  }

  /** Within a generation the report mark is lost only with the target. */
  lemma ReportLostWithTarget(st: Settings, h: seq<Sighting>, s: Sighting, a: nat)
    requires 0 < st.debounce && Timely(h + [s]) && a < |h| && h[a].target
    requires Tracks(st, h, After(st, h), MarksAfter(st, h))
    requires After(st, h).reported == After(st, h).seen == s.generation
    requires Step(st, After(st, h), s).reported != s.generation
    ensures Dropped(st, h + [s], a + 1, |h| + 1)
  {
    var g := h + [s];
    var m := MarksAfter(st, h);
    hide After;
    hide MarksAfter;
    assert forall k :: 0 <= k < |h| ==> g[k] == h[k];
    assert g[|h|] == s;
    assert a < m.dropped;
    assert DropBlock(st, g, m.dropped, |h|);
  }

  /** Two accepted events of one armed generation belong to different runs: between them
      the target was lost for the debounce time. */
  lemma OneEventPerRunAndGeneration(st: Settings, h: seq<Sighting>, a: nat, b: nat)
    requires 0 < st.debounce && Timely(h) && a < b < |h|
    requires Accepted(st, h, a) && Accepted(st, h, b) && h[a].generation == h[b].generation
    ensures Dropped(st, h, a + 1, b)
  {
    var p := h[..b];
    PrefixFrames(h, a, b);
    assert h[a].generation <= h[b - 1].generation <= h[b].generation && 0 < h[b].now;
    TimelyPrefix(h, b);
    ReportAlwaysOk(st, p);
    SeenIsLast(st, p);
    AcceptFacts(st, After(st, p), h[b]);
    PrefixBlocks(st, h, b, a + 1);
    hide Timely;
    hide After;
    hide Accepts;
    hide Step;
    hide Dropped;
    assert Accepted(st, p, a);
  }

  lemma PrefixFrames(h: seq<Sighting>, a: nat, b: nat)
    requires a < b <= |h|
    ensures h[..b][..a] == h[..a] && h[..b][a] == h[a] && h[..b][b - 1] == h[b - 1]
  {
  }

  lemma SeenIsLast(st: Settings, h: seq<Sighting>)
    requires h != []
    ensures After(st, h).seen == h[|h| - 1].generation
  {
  }

  // ---- a sustained target is reported ----

  /** The frame is one the trigger may report on. */
  predicate Reportable(st: Settings, s: Sighting) {
    && s.target && s.armed && s.room && 0 < s.generation
    && (st.maxDistance < 9999 ==> s.distance <= st.maxDistance) && (0 < st.minEnergy ==> s.energy >= st.minEnergy)
  }

  /** Frames s..|h|-1 belong to one generation and all have a target. */
  predicate Steady(h: seq<Sighting>, s: nat) {
    s < |h| && forall k :: s <= k < |h| ==> h[k].target && h[k].generation == h[s].generation
  }

  /** Such a stretch counts at least from its first frame. */
  lemma {:induction false} SteadySince(st: Settings, h: seq<Sighting>, s: nat)
    requires 0 < st.debounce && Timely(h) && Steady(h, s)
    ensures var d := After(st, h); 0 < d.since <= h[s].now && d.seen == h[s].generation
  {
    var n := |h| - 1;
    TimelyPrefix(h, n);
    assert 0 < h[n].now;
    if s == n {
      TracksAlways(st, h[..n]);
      var m := MarksAfter(st, h[..n]);
      if 0 <= m.since { assert 0 < h[m.since].now <= h[n].now; }
    } else {
      assert h[..n][s] == h[s];
      SteadySince(st, h[..n], s);
    }
  }

  /** An event of generation g was accepted at frame a and the target not lost since. */
  ghost predicate ReportedInRun(st: Settings, h: seq<Sighting>, a: int, g: nat) {
    0 <= a < |h| && Accepted(st, h, a) && h[a].generation == g && !Dropped(st, h, a + 1, |h|)
  }

  /** While the drop timer has not run out, the run that was reported is not lost. */
  lemma ReportSurvives(st: Settings, h: seq<Sighting>, s: Sighting, a: nat, d: Detector, m: Marks)
    requires 0 < st.debounce && Timely(h + [s]) && a < |h| && h[a].target
    requires RunOk(st, h, d, m) && DropOk(h, d, m)
    requires d.since != 0 && d.seen == s.generation && !Dropped(st, h, a + 1, |h|)
    requires s.target || NoteTarget(st, d, s).since != 0
    ensures !Dropped(st, h + [s], a + 1, |h| + 1)
  {
    var g := h + [s];
    assert forall k :: 0 <= k < |h| ==> g[k] == h[k];
    DroppedGrows(st, h, s, a + 1);
    if !s.target {
      var start := if d.dropped == 0 then |h| else m.dropped;
      assert g[start - 1].target && s.now - g[start].now < st.debounce * 1000;
      assert a + 1 <= start;
      NoBlockYet(st, h, s, a + 1, start);
    }
  }

  lemma ReportStep(st: Settings, d: Detector, s: Sighting)
    requires Step(st, d, s).reported != 0 && !Accepts(st, d, s)
    ensures d.reported == Step(st, d, s).reported && d.seen == s.generation
    ensures s.target || NoteTarget(st, d, s).since == d.since
    ensures Step(st, d, s).since == NoteTarget(st, d, s).since
  {
  }

  /** A report mark stands for a run in progress. */
  lemma {:induction false} ReportHasRun(st: Settings, h: seq<Sighting>)
    requires forall k :: 0 <= k < |h| ==> 0 < h[k].now
    ensures After(st, h).reported != 0 ==> After(st, h).since != 0
  {
    if h != [] {
      ReportHasRun(st, h[..|h| - 1]);
    }
  }

  lemma {:induction false} ReportHasCause(st: Settings, h: seq<Sighting>, g: nat) returns (a: nat)
    requires 0 < st.debounce && Timely(h) && 0 < g && After(st, h).reported == g
    ensures ReportedInRun(st, h, a, g)
  {
    var n := |h| - 1;
    var before, last := h[..n], h[n];
    OneMoreFrame(st, h, n);
    var d := After(st, before);
    if Accepts(st, d, last) {
      a := n;
      AcceptFacts(st, d, last);
    } else {
      ReportStep(st, d, last);
      a := ReportHasCause(st, before, g);
      TracksAlways(st, before);
      ReportHasRun(st, before);
      PrefixFrames(h, a, n);
      AcceptFacts(st, After(st, before[..a]), before[a]);
      hide After;
      hide MarksAfter;
      hide Step;
      hide Accepts;
      hide Dropped;
      ReportSurvives(st, before, last, a, d, MarksAfter(st, before));
    }
  }

  /** A target present in every frame for the longer of the two sustain times, within one
      armed generation, has been reported by the end of it, in this very run. */
  lemma SustainedTargetReported(st: Settings, h: seq<Sighting>, s: nat) returns (a: nat)
    requires 0 < st.debounce && Timely(h) && Steady(h, s) && Reportable(st, h[|h| - 1])
    requires h[|h| - 1].now - h[s].now >= st.sustain * 1_000_000
    requires h[|h| - 1].now - h[s].now >= st.armedSustain * 1_000_000
    ensures ReportedInRun(st, h, a, h[s].generation)
  {
    SteadySince(st, h, s);
    a := |h| - 1;
    if !Accepted(st, h, a) {
      LastFrameReported(st, h);
      a := ReportHasCause(st, h, h[s].generation);
    }
  }

  lemma LastFrameReported(st: Settings, h: seq<Sighting>)
    requires h != [] && Reportable(st, h[|h| - 1]) && !Accepted(st, h, |h| - 1)
    requires var d := After(st, h);
      && h[|h| - 1].now - d.since >= st.sustain * 1_000_000
      && h[|h| - 1].now - d.since >= st.armedSustain * 1_000_000
    ensures After(st, h).reported == h[|h| - 1].generation
  {
    var d := Timers(st, After(st, h[..|h| - 1]), h[|h| - 1]);
    assert After(st, h).since == d.since && After(st, h).reported == d.reported;
    WholeSeconds(h[|h| - 1].now - d.since, Required(st, d));
  }

  lemma WholeSeconds(span: int, seconds: nat)
    requires span >= seconds * 1_000_000
    ensures span / 1_000_000 >= seconds
  {
  }
}
