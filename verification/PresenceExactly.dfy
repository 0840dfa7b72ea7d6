/** Exactly which radar frames raise a presence event, said of the history alone. */
module PresenceExactly {
  import opened Presence
  import opened PresenceProofs

  /** The armed generation changes at frame k. */
  predicate NewGeneration(h: seq<Sighting>, k: nat)
    requires k < |h|
  {
    h[k].generation != if k == 0 then 0 else h[k - 1].generation
  }

  /** The dwell may be counted from frame s: a target, not lost since for the debounce time,
      and not found there by the first frame of a later generation. */
  ghost predicate Counts(st: Settings, h: seq<Sighting>, s: int) {
    && 0 <= s < |h| && h[s].target && !Dropped(st, h, s, |h|)
    && forall k :: s < k < |h| && h[k].target ==> !NewGeneration(h, k)
  }

  /** The mark stands at the earliest such frame. */
  ghost predicate Earliest(st: Settings, h: seq<Sighting>, m: Marks) {
    && (0 <= m.since ==> Counts(st, h, m.since))
    && forall s :: Counts(st, h, s) ==> 0 <= m.since <= s
  }

  lemma CountsBefore(st: Settings, h: seq<Sighting>, s: Sighting, k: int)
    requires 0 <= k < |h| && Counts(st, h + [s], k)
    ensures Counts(st, h, k) && !(s.target && NewGeneration(h + [s], |h|))
  {
    var g := h + [s];
    assert g[|h|] == s && forall i :: 0 <= i < |h| ==> g[i] == h[i];
    DroppedGrows(st, h, s, k);
    hide Dropped;
    forall i | k < i < |h| && h[i].target ensures !NewGeneration(h, i) {
      assert g[i].target && !NewGeneration(g, i);
    }
  }

  lemma CountsStill(st: Settings, h: seq<Sighting>, s: Sighting, k: int)
    requires Counts(st, h, k) && !Dropped(st, h + [s], k, |h| + 1)
    requires s.target ==> !NewGeneration(h + [s], |h|)
    ensures Counts(st, h + [s], k)
  {
    var g := h + [s];
    assert g[|h|] == s && forall i :: 0 <= i < |h| ==> g[i] == h[i];
    forall i | k < i < |g| && g[i].target ensures !NewGeneration(g, i) {
      if i < |h| { assert !NewGeneration(h, i); }
    }
  }

  lemma CountsFromHere(st: Settings, h: seq<Sighting>, s: Sighting)
    requires s.target
    ensures Counts(st, h + [s], |h|)
  {
    assert (h + [s])[|h|] == s;
  }

  lemma DropEnds(st: Settings, h: seq<Sighting>, s: Sighting, m: nat, k: int)
    requires m < |h| && !s.target && s.now - h[m].now >= st.debounce * 1000
    requires forall i :: m <= i < |h| ==> !h[i].target
    ensures !Counts(st, h + [s], k)
  {
    var g := h + [s];
    assert g[|h|] == s && forall i :: 0 <= i < |h| ==> g[i] == h[i];
    assert DropBlock(st, g, m, |h|);
  }

  lemma EarliestStep(st: Settings, h: seq<Sighting>, s: Sighting, d: Detector, m: Marks)
    requires 0 < st.debounce && Timely(h + [s]) && Tracks(st, h, d, m) && Earliest(st, h, m)
    ensures Earliest(st, h + [s], MarkStep(st, d, m, s, |h|))
  {
    var g := h + [s];
    var m1 := MarkStep(st, d, m, s, |h|);
    assert g[|h|] == s && forall i :: 0 <= i < |h| ==> g[i] == h[i];
    assert NewGeneration(g, |h|) <==> s.generation != d.seen;
    RunStep(st, h, s, d, m);
    if s.target { CountsFromHere(st, h, s); }
    forall k | Counts(st, g, k) ensures 0 <= m1.since <= k {
      if k < |h| { CountsBefore(st, h, s, k); }
      if !s.target && 0 <= m.dropped && m1.since == -1 && 0 <= m.since { DropEnds(st, h, s, m.dropped, k); }
    }
    if 0 <= m1.since < |h| { CountsStill(st, h, s, m1.since); }
  }

  lemma {:induction false} EarliestAlways(st: Settings, h: seq<Sighting>)
    requires 0 < st.debounce && Timely(h)
    ensures Earliest(st, h, MarksAfter(st, h))
  {
    if h != [] {
      hide *;
      var n := |h| - 1;
      OneMoreFrame(st, h, n);
      EarliestAlways(st, h[..n]);
      TracksAlways(st, h[..n]);
      EarliestStep(st, h[..n], h[n], After(st, h[..n]), MarksAfter(st, h[..n]));
    } else {
      assert MarksAfter(st, h).since == -1;
    }
  }

  /** The dwell time a generation needs: the longer time when the target was already there in the
      first frame of the generation. */
  ghost predicate DwellNeeded(st: Settings, h: seq<Sighting>, generation: nat, seconds: nat) {
    exists g :: FirstFrame(h, g, generation) && seconds == if h[g].target then st.armedSustain else st.sustain
  }

  ghost predicate DwelledFrom(st: Settings, h: seq<Sighting>, s: int, seconds: nat) {
    Counts(st, h, s) && h[|h| - 1].now - h[s].now >= seconds * 1_000_000
  }

  /** The last frame shows a target that has dwelled long enough. */
  ghost predicate Dwelled(st: Settings, h: seq<Sighting>) {
    && h != []
    && exists s, seconds ::
         DwellNeeded(st, h, h[|h| - 1].generation, seconds) && DwelledFrom(st, h, s, seconds)
  }

  lemma DwellReads(st: Settings, h: seq<Sighting>, d: Detector, m: Marks)
    requires h != [] && Timely(h) && Tracks(st, h, d, m) && Earliest(st, h, m) && h[|h| - 1].target && 0 < d.seen
    ensures (h[|h| - 1].now - d.since) / 1_000_000 >= Required(st, d) <==> Dwelled(st, h)
  {
    var n := |h| - 1;
    NeededReads(st, h, d, m);
    SinceReads(st, h, d, m);
    if Dwelled(st, h) {
      var s, seconds :| DwellNeeded(st, h, h[n].generation, seconds) && DwelledFrom(st, h, s, seconds);
      assert h[m.since].now <= h[s].now;
    }
    if (h[n].now - d.since) / 1_000_000 >= Required(st, d) {
      assert DwelledFrom(st, h, m.since, Required(st, d));
    }
    hide Tracks, Counts, Earliest, DwellNeeded, Timely;
  }

  lemma NeededReads(st: Settings, h: seq<Sighting>, d: Detector, m: Marks)
    requires h != [] && Tracks(st, h, d, m) && 0 < d.seen
    ensures d.seen == h[|h| - 1].generation
    ensures forall seconds: nat :: DwellNeeded(st, h, d.seen, seconds) <==> seconds == Required(st, d)
  {
    assert FirstFrame(h, m.generation, d.seen);
    hide RunOk, DropOk;
    forall seconds: nat ensures DwellNeeded(st, h, d.seen, seconds) <==> seconds == Required(st, d) {
      if DwellNeeded(st, h, d.seen, seconds) {
        var g :| FirstFrame(h, g, d.seen) && seconds == if h[g].target then st.armedSustain else st.sustain;
        assert g == m.generation;
      }
    }
  }

  lemma SinceReads(st: Settings, h: seq<Sighting>, d: Detector, m: Marks)
    requires h != [] && Timely(h) && Tracks(st, h, d, m) && Earliest(st, h, m) && h[|h| - 1].target
    ensures 0 <= m.since < |h| && Counts(st, h, m.since) && d.since == h[m.since].now
    ensures forall s :: Counts(st, h, s) ==> h[m.since].now <= h[s].now
  {
    var n := |h| - 1;
    assert Counts(st, h, n);
  }

  /** An event of generation g was accepted before the last frame, and the target not lost since. */
  ghost predicate AlreadyReported(st: Settings, h: seq<Sighting>, g: nat) {
    exists a :: ReportedInRun(st, h, a, g)
  }

  lemma ReportReads(st: Settings, h: seq<Sighting>, s: Sighting)
    requires 0 < st.debounce && Timely(h + [s]) && s.target && 0 < s.generation
    ensures Timers(st, After(st, h), s).reported == s.generation <==> AlreadyReported(st, h, s.generation)
  {
    var d, g := After(st, h), h + [s];
    assert g[|h|] == s && forall i :: 0 <= i < |h| ==> g[i] == h[i];
    TimelyPrefix(g, |h|);
    assert g[..|h|] == h;
    ReportAlwaysOk(st, h);
    if h != [] {
      SeenIsLast(st, h);
      assert g[|h| - 1].generation <= g[|h|].generation;
    }
    hide Accepted, Dropped;
    if d.seen == s.generation {
      assert h != [];
      if d.reported == s.generation {
        var a := ReportHasCause(st, h, s.generation);
        assert ReportedInRun(st, h, a, s.generation);
      }
    }
  }

  /** A frame raises an event exactly when it may be reported on (a target near and strong
      enough, an armed bus, room in the queue), its target has dwelled the time its
      generation needs, and no event of the generation was accepted in the same run. */
  lemma AcceptedExactly(st: Settings, h: seq<Sighting>, i: nat)
    requires 0 < st.debounce && Timely(h) && i < |h|
    ensures Accepted(st, h, i) <==>
      Reportable(st, h[i]) && Dwelled(st, h[..i + 1]) && !AlreadyReported(st, h[..i], h[i].generation)
  {
    var p, before, s := h[..i + 1], h[..i], h[i];
    if Reportable(st, s) {
      assert p[..i] == before && p[i] == s && before + [s] == p;
      TimelyPrefix(h, i + 1);
      TimelyPrefix(h, i);
      TracksAlways(st, p);
      EarliestAlways(st, p);
      TracksAlways(st, before);
      var d := Timers(st, After(st, before), s);
      TimersOfStep(st, h, i);
      DwellReads(st, p, After(st, p), MarksAfter(st, p));
      ReportReads(st, before, s);
      hide After, Dwelled, AlreadyReported, Timers, MarksAfter, Tracks, Earliest, Timely;
    }
  }

  lemma TimersOfStep(st: Settings, h: seq<Sighting>, i: nat)
    requires i < |h|
    ensures var d := Timers(st, After(st, h[..i]), h[i]);
      After(st, h[..i + 1]) == d.(reported := After(st, h[..i + 1]).reported) && d.seen == h[i].generation
  {
    assert h[..i + 1][..i] == h[..i];
  }
}
