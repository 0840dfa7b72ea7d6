/** NEAR as a property of a tag's whole history. */
module ScannerProofs {
  import opened Scanner

  function After(st: Settings, t: Tag, h: seq<Happening>): Tag {
    if h == [] then t else Step(st, After(st, t, h[..|h| - 1]), h[|h| - 1])
  }

  predicate HasTime(e: Happening) { e.Reading? || e.Check? }

  /** The clock is positive and never goes back. */
  ghost predicate Timely(h: seq<Happening>) {
    && (forall k :: 0 <= k < |h| && HasTime(h[k]) ==> 0 < h[k].now)
    && (forall j, k :: 0 <= j <= k < |h| && HasTime(h[j]) && HasTime(h[k]) ==> h[j].now <= h[k].now)
  }

  /** Event k of the history takes the tag out of any run: a deactivation, a threshold
      change, or a check that finds it silent. */
  predicate Resets(st: Settings, t: Tag, h: seq<Happening>, k: nat)
    requires k < |h|
  {
    var before := After(st, t, h[..k]);
    match h[k]
    case Reading(_, _) => false
    case Check(now) =>
      before.active && !before.range.Absent? && now - before.lastSeen > st.absentTimeout * 1_000_000
    case Retune(threshold) => threshold != before.threshold
    case SetActive(on) => !on
  }

  /** Event k is a reading, taken while active, at or above both the record's threshold and
      the floor under all of them. */
  predicate Strong(st: Settings, t: Tag, h: seq<Happening>, k: nat)
    requires k < |h|
  {
    var before := After(st, t, h[..k]);
    h[k].Reading? && before.active && h[k].rssi >= before.threshold && h[k].rssi >= st.floor
  }

  /** Event k ends NEAR: a reading below one of the two by more than the hysteresis, or a reset. */
  predicate Ends(st: Settings, t: Tag, h: seq<Happening>, k: nat)
    requires k < |h|
  {
    var before := After(st, t, h[..k]);
    Resets(st, t, h, k) ||
    (h[k].Reading? && before.active &&
     (h[k].rssi < before.threshold - st.hysteresis || h[k].rssi < st.floor - st.hysteresis))
  }

  /** From the strong reading s on, up to event n, every reading is strong and nothing resets. */
  ghost predicate Clean(st: Settings, t: Tag, h: seq<Happening>, s: nat, n: nat)
    requires n <= |h|
  {
    && s < n && Strong(st, t, h, s)
    && forall k :: s < k < n ==> !Resets(st, t, h, k) && (h[k].Reading? ==> Strong(st, t, h, k))
  }

  /** NEAR was earned at reading e: a clean stretch from a reading at least the sustain
      time earlier. */
  ghost predicate Earned(st: Settings, t: Tag, h: seq<Happening>, s: nat, e: nat)
    requires e < |h|
  {
    s <= e && h[e].Reading? && Clean(st, t, h, s, e + 1) && h[e].now - h[s].now >= st.nearSustain * 1_000_000
  }

  /** And not lost since. */
  ghost predicate Held(st: Settings, t: Tag, h: seq<Happening>, e: nat) {
    forall k :: e < k < |h| ==> !Ends(st, t, h, k)
  }

  ghost predicate NearSpec(st: Settings, t: Tag, h: seq<Happening>) {
    exists s, e :: 0 <= s <= e < |h| && Earned(st, t, h, s, e) && Held(st, t, h, e)
  }

  /** A record as roster commands and loading create it. */
  predicate Fresh(t: Tag) { t.range.Absent? && t.nearSince == 0 }

  /** What near_since means, and what NEAR means. */
  ghost predicate Meaning(st: Settings, t: Tag, h: seq<Happening>) {
    var now := After(st, t, h);
    && 0 <= now.nearSince
    && (forall s :: 0 <= s < |h| && Clean(st, t, h, s, |h|) ==> 0 < now.nearSince <= h[s].now)
    && (now.nearSince != 0 ==> exists j :: 0 <= j < |h| && h[j].Reading? && h[j].now == now.nearSince)
    && (now.nearSince != 0 && !now.range.Near? ==>
          exists s :: 0 <= s < |h| && Clean(st, t, h, s, |h|) && h[s].now == now.nearSince)
    && (now.range.Near? ==> NearSpec(st, t, h))
    && (!now.active ==> now.range.Absent? && now.nearSince == 0)
  }

  /** Predicates about a prefix do not see what follows. */
  lemma PrefixStable(st: Settings, t: Tag, h: seq<Happening>, e: Happening)
    ensures var g := h + [e];
      forall k :: 0 <= k < |h| ==>
        && Resets(st, t, g, k) == Resets(st, t, h, k) && Strong(st, t, g, k) == Strong(st, t, h, k)
        && Ends(st, t, g, k) == Ends(st, t, h, k)
    ensures (h + [e])[..|h|] == h
  {
    var g := h + [e];
    forall k | 0 <= k < |h|
      ensures Resets(st, t, g, k) == Resets(st, t, h, k) && Strong(st, t, g, k) == Strong(st, t, h, k)
      ensures Ends(st, t, g, k) == Ends(st, t, h, k)
    {
      assert g[..k] == h[..k] && g[k] == h[k];
    }
  }

  lemma CleanExtends(st: Settings, t: Tag, h: seq<Happening>, e: Happening, s: nat)
    requires s < |h|
    ensures var g := h + [e];
      Clean(st, t, g, s, |g|) <==>
        Clean(st, t, h, s, |h|) && !Resets(st, t, g, |h|) && (e.Reading? ==> Strong(st, t, g, |h|))
  {
    PrefixStable(st, t, h, e);
    assert forall k :: 0 <= k < |h| ==> (h + [e])[k] == h[k];
    assert (h + [e])[|h|] == e;
    hide Resets;
    hide Strong;
    hide Ends;
  }

  lemma EarnedStable(st: Settings, t: Tag, h: seq<Happening>, e: Happening, s: nat, i: nat)
    requires i < |h|
    ensures Earned(st, t, h + [e], s, i) == Earned(st, t, h, s, i)
  {
    PrefixStable(st, t, h, e);
    assert forall k :: 0 <= k < |h| ==> (h + [e])[k] == h[k];
    hide Resets;
    hide Strong;
    hide Ends;
  }

  /** NEAR goes on exactly while nothing ends it. */
  lemma NearContinues(st: Settings, t: Tag, e: Happening)
    requires t.range.Near? && t.active
    ensures Step(st, t, e).range.Near? <==>
      !(match e
        case Reading(_, rssi) => rssi < Effective(st, t.threshold) - st.hysteresis
        case Check(now) => Expired(st, t, now)
        case Retune(threshold) => threshold != t.threshold
        case SetActive(on) => !on)
  {
  }

  lemma NearContinuesInHistory(st: Settings, t: Tag, h: seq<Happening>, e: Happening)
    requires After(st, t, h).range.Near? && After(st, t, h).active
    ensures After(st, t, h + [e]).range.Near? <==> !Ends(st, t, h + [e], |h|)
  {
    assert (h + [e])[..|h|] == h;
    NearContinues(st, After(st, t, h), e);
  }

  lemma HeldExtends(st: Settings, t: Tag, h: seq<Happening>, e: Happening)
    requires NearSpec(st, t, h) && !Ends(st, t, h + [e], |h|)
    ensures NearSpec(st, t, h + [e])
  {
    var s, i :| 0 <= s <= i < |h| && Earned(st, t, h, s, i) && Held(st, t, h, i);
    EarnedStable(st, t, h, e, s, i);
    PrefixStable(st, t, h, e);
    hide Ends;
    hide Earned;
    assert Held(st, t, h + [e], i);
  }

  lemma JustEarned(st: Settings, t: Tag, g: seq<Happening>, s: nat)
    requires g != [] && s < |g| && g[|g| - 1].Reading? && Clean(st, t, g, s, |g|)
    requires g[|g| - 1].now - g[s].now >= st.nearSustain * 1_000_000
    ensures NearSpec(st, t, g)
  {
    assert Earned(st, t, g, s, |g| - 1) && Held(st, t, g, |g| - 1);
  }

  lemma SingleReadingClean(st: Settings, t: Tag, g: seq<Happening>)
    requires g != [] && Strong(st, t, g, |g| - 1)
    ensures Clean(st, t, g, |g| - 1, |g|)
  {
  }

  lemma StrongKeepsNear(st: Settings, t: Tag, h: seq<Happening>, e: Happening)
    requires NearSpec(st, t, h) && Strong(st, t, h + [e], |h|)
    ensures NearSpec(st, t, h + [e])
  {
    assert (h + [e])[..|h|] == h;
    HeldExtends(st, t, h, e);
  }

  /** What a strong reading does to the record, and to the stretches of the history. */
  lemma StrongEffect(st: Settings, t: Tag, h: seq<Happening>, e: Happening)
    requires Timely(h + [e]) && Strong(st, t, h + [e], |h|)
    ensures e.Reading? && 0 < e.now && After(st, t, h).active
    ensures After(st, t, h + [e]) == OnReading(st, After(st, t, h), e.now, e.rssi)
    ensures e.rssi >= Effective(st, After(st, t, h).threshold)
    ensures forall s :: 0 <= s < |h| ==> (Clean(st, t, h + [e], s, |h| + 1) <==> Clean(st, t, h, s, |h|))
    ensures Clean(st, t, h + [e], |h|, |h| + 1)
    ensures forall j :: 0 <= j < |h| && h[j].Reading? ==> h[j].now <= e.now
  {
    var g := h + [e];
    assert g[..|h|] == h && g[|h|] == e;
    assert !Resets(st, t, g, |h|);
    SingleReadingClean(st, t, g);
    forall j | 0 <= j < |h| && h[j].Reading? ensures h[j].now <= e.now {
      assert g[j].now <= g[|h|].now;
    }
    hide After;
    hide Resets;
    hide Strong;
    hide Timely;
    forall s | 0 <= s < |h| ensures Clean(st, t, g, s, |g|) <==> Clean(st, t, h, s, |h|) {
      CleanExtends(st, t, h, e, s);
    }
  }

  /** After a strong reading near_since is the time of a reading, and no later than the
      start of any stretch; short of NEAR it is the start of one. */
  lemma StrongSince(st: Settings, t: Tag, h: seq<Happening>, e: Happening) returns (j: nat)
    requires Timely(h + [e]) && Meaning(st, t, h) && Strong(st, t, h + [e], |h|)
    ensures var g := h + [e];
      var since := After(st, t, g).nearSince;
      && 0 < since && j < |g| && g[j].Reading? && g[j].now == since
      && (forall s :: 0 <= s < |g| && Clean(st, t, g, s, |g|) ==> since <= g[s].now)
      && (!After(st, t, h).range.Near? ==> Clean(st, t, g, j, |g|))
  {
    var g := h + [e];
    var a := After(st, t, h);
    StrongEffect(st, t, h, e);
    hide After;
    hide Timely;
    hide Strong;
    hide Clean;
    hide NearSpec;
    assert g[|h|] == e && forall k :: 0 <= k < |h| ==> g[k] == h[k];
    j := |h|;
    if a.nearSince != 0 && !a.range.Near? {
      j :| 0 <= j < |h| && Clean(st, t, h, j, |h|) && h[j].now == a.nearSince;
      CleanStartsWithReading(st, t, h, j);
    } else if a.nearSince != 0 {
      j :| 0 <= j < |h| && h[j].Reading? && h[j].now == a.nearSince;
    }
  }

  lemma CleanStartsWithReading(st: Settings, t: Tag, h: seq<Happening>, s: nat)
    requires Clean(st, t, h, s, |h|)
    ensures h[s].Reading?
  {
  }

  /** A strong reading starts or continues a stretch, and may earn NEAR. */
  lemma StrongReading(st: Settings, t: Tag, h: seq<Happening>, e: Happening)
    requires Timely(h + [e]) && Meaning(st, t, h) && Strong(st, t, h + [e], |h|)
    ensures Meaning(st, t, h + [e])
  {
    var g := h + [e];
    var a, b := After(st, t, h), After(st, t, g);
    hide After, Timely, Strong, Clean, NearSpec, Resets, Ends, Effective;
    StrongEffect(st, t, h, e);
    var j := StrongSince(st, t, h, e);
    if a.range.Near? { StrongKeepsNear(st, t, h, e); }
    assert g[|h|] == e;
    if !a.range.Near? && b.range.Near? { JustEarned(st, t, g, j); }
  }

  /** Any other event: it breaks every stretch, or it leaves the tag's run alone. */
  lemma OtherEvent(st: Settings, t: Tag, h: seq<Happening>, e: Happening)
    requires Timely(h + [e]) && Meaning(st, t, h) && !Strong(st, t, h + [e], |h|)
    ensures Meaning(st, t, h + [e])
  {
    var g := h + [e];
    var a, b := After(st, t, h), After(st, t, g);
    OtherEffect(st, t, h, e);
    OtherKeepsNear(st, t, h, e);
    hide After;
    hide Resets;
    hide Clean;
    hide Ends;
    hide NearSpec;
    hide Timely;
    hide Strong;
    assert g[|h|] == e && forall k :: 0 <= k < |h| ==> g[k] == h[k];
    if a.nearSince != 0 {
      var j :| 0 <= j < |h| && h[j].Reading? && h[j].now == a.nearSince;
      assert g[j].now == a.nearSince;
    }
    if a.nearSince != 0 && !a.range.Near? && !e.Reading? && !Resets(st, t, g, |h|) {
      var s :| 0 <= s < |h| && Clean(st, t, h, s, |h|) && h[s].now == a.nearSince;
      assert Clean(st, t, g, s, |g|) && g[s].now == a.nearSince;
    }
  }

  lemma OtherKeepsNear(st: Settings, t: Tag, h: seq<Happening>, e: Happening)
    requires Meaning(st, t, h) && !Strong(st, t, h + [e], |h|)
    ensures After(st, t, h + [e]).range.Near? ==> After(st, t, h).range.Near? && NearSpec(st, t, h + [e])
  {
    assert (h + [e])[..|h|] == h;
    assert After(st, t, h + [e]) == Step(st, After(st, t, h), e);
    if After(st, t, h).range.Near? {
      NearContinuesInHistory(st, t, h, e);
      hide After;
      if !Ends(st, t, h + [e], |h|) { HeldExtends(st, t, h, e); }
    }
  }

  /** What such an event does to the record, and to the stretches of the history. */
  lemma OtherEffect(st: Settings, t: Tag, h: seq<Happening>, e: Happening)
    requires Meaning(st, t, h) && !Strong(st, t, h + [e], |h|)
    ensures var g := h + [e];
      var a, b := After(st, t, h), After(st, t, g);
      && b == Step(st, a, e)
      && (forall s :: 0 <= s < |g| ==> (Clean(st, t, g, s, |g|) <==>
            s < |h| && Clean(st, t, h, s, |h|) && !Resets(st, t, g, |h|) && !e.Reading?))
      && (a.active && (e.Reading? || Resets(st, t, g, |h|)) && b.nearSince != 0 ==> a.range.Near? && b.range.Near?)
      && (!a.active || (!e.Reading? && !Resets(st, t, g, |h|)) ==> b.nearSince == a.nearSince && b.range == a.range)
      && (b.nearSince == a.nearSince || b.nearSince == 0)
      && (!b.active ==> b.range.Absent? && b.nearSince == 0)
  {
    var g := h + [e];
    assert g[..|h|] == h && g[|h|] == e;
    hide NearSpec;
    forall s | 0 <= s < |g|
      ensures Clean(st, t, g, s, |g|) <==>
        s < |h| && Clean(st, t, h, s, |h|) && !Resets(st, t, g, |h|) && !e.Reading?
    {
      if s < |h| { CleanExtends(st, t, h, e, s); }
    }
    hide Clean;
  }

  lemma {:induction false} MeaningAlways(st: Settings, t: Tag, h: seq<Happening>)
    requires Fresh(t) && Timely(h)
    ensures Meaning(st, t, h)
  {
    if h != [] {
      var n := |h| - 1;
      assert h[..n] + [h[n]] == h;
      MeaningAlways(st, t, h[..n]);
      if Strong(st, t, h, n) { StrongReading(st, t, h[..n], h[n]); } else { OtherEvent(st, t, h[..n], h[n]); }
    }
  }

  lemma NearNeedsActive(st: Settings, t: Tag, h: seq<Happening>)
    requires Meaning(st, t, h)
    ensures After(st, t, h).range.Near? ==> After(st, t, h).active
  {
  }

  lemma EarnedIsNear(st: Settings, t: Tag, h: seq<Happening>, s: nat)
    ensures Meaning(st, t, h) && h != [] && Earned(st, t, h, s, |h| - 1) ==> After(st, t, h).range.Near?
  {
    if Meaning(st, t, h) && h != [] && Earned(st, t, h, s, |h| - 1) {
      var e := h[|h| - 1];
      assert Strong(st, t, h, |h| - 1);
      assert After(st, t, h) == OnReading(st, After(st, t, h[..|h| - 1]), e.now, e.rssi);
      hide After;
    }
  }

  /** NEAR was earned, so it is NEAR as long as it is held. */
  lemma {:induction false} HeldIsNear(st: Settings, t: Tag, h: seq<Happening>, s: nat, e: nat)
    requires Fresh(t) && Timely(h)
    requires e < |h| && Earned(st, t, h, s, e) && Held(st, t, h, e)
    ensures After(st, t, h).range.Near?
  {
    MeaningAlways(st, t, h);
    hide *;
    if e == |h| - 1 {
      EarnedIsNear(st, t, h, s);
    } else {
      var before, last := h[..|h| - 1], h[|h| - 1];
      TimelyBefore(h);
      HeldBefore(st, t, before, last, s, e);
      MeaningAlways(st, t, before);
      HeldIsNear(st, t, before, s, e);
      NearNeedsActive(st, t, before);
      NearContinuesInHistory(st, t, before, last);
    }
  }

  lemma HeldBefore(st: Settings, t: Tag, h: seq<Happening>, last: Happening, s: nat, e: nat)
    requires e < |h| && Earned(st, t, h + [last], s, e) && Held(st, t, h + [last], e)
    ensures Earned(st, t, h, s, e) && Held(st, t, h, e) && !Ends(st, t, h + [last], |h|)
  {
    EarnedStable(st, t, h, last, s, e);
    PrefixStable(st, t, h, last);
    hide Ends;
    hide Earned;
  }

  lemma TimelyBefore(h: seq<Happening>)
    requires Timely(h) && h != []
    ensures Timely(h[..|h| - 1]) && h[..|h| - 1] + [h[|h| - 1]] == h
  {
  }

  /** Over every history of a record: it is NEAR exactly when a clean stretch of strong
      readings at least the sustain time long earned it and nothing has ended it since. */
  lemma NearExactly(st: Settings, t: Tag, h: seq<Happening>)
    requires Fresh(t) && Timely(h)
    ensures After(st, t, h).range.Near? <==> NearSpec(st, t, h)
  {
    MeaningAlways(st, t, h);
    if NearSpec(st, t, h) {
      var s, e :| 0 <= s <= e < |h| && Earned(st, t, h, s, e) && Held(st, t, h, e);
      HeldIsNear(st, t, h, s, e);
    }
  }

  /** A record that is not ABSENT was last heard at last_seen. */
  lemma {:induction false} LastSeenIsLastReading(st: Settings, t: Tag, h: seq<Happening>) returns (j: nat)
    requires Fresh(t) && !After(st, t, h).range.Absent?
    ensures j < |h| && h[j].Reading? && h[j].now == After(st, t, h).lastSeen
    ensures forall k :: j < k < |h| && h[k].Reading? ==> !After(st, t, h[..k]).active
  {
    var n := |h| - 1;
    var before := h[..n];
    if h[n].Reading? && After(st, t, before).active {
      j := n;
    } else {
      j := LastSeenIsLastReading(st, t, before);
      assert forall k :: 0 <= k < n ==> before[..k] == h[..k];
    }
  }

  /** Silence does not break a stretch while the record is still ABSENT: two strong
      readings the sustain time apart make it NEAR, however many checks run in between. */
  lemma {:induction false} SilenceWhileAbsent(
      st: Settings, t: Tag, first: int, rssi: int, checks: seq<Happening>, last: int)
    requires Fresh(t) && t.active && 0 < first && rssi >= t.threshold && rssi >= st.floor
    requires forall k :: 0 <= k < |checks| ==> checks[k].Check?
    requires last - first >= st.nearSustain * 1_000_000 && 0 < st.nearSustain
    ensures var u := After(st, Step(st, t, Reading(first, rssi)), checks);
      && u == Step(st, t, Reading(first, rssi))
      && Step(st, u, Reading(last, rssi)).range.Near?
  {
    if checks != [] {
      SilenceWhileAbsent(st, t, first, rssi, checks[..|checks| - 1], last);
    }
  }

  // ---- FAR and ABSENT ----

  /** Event k is a reading that makes the record FAR: too weak even for the hysteresis, or
      below the threshold while it is not NEAR. */
  predicate Weak(st: Settings, t: Tag, h: seq<Happening>, k: nat)
    requires k < |h|
  {
    var before := After(st, t, h[..k]);
    var margin := if before.range.Near? then st.hysteresis else 0;
    h[k].Reading? && before.active && (h[k].rssi < before.threshold - margin || h[k].rssi < st.floor - margin)
  }

  ghost predicate WeakSinceReset(st: Settings, t: Tag, h: seq<Happening>) {
    exists k :: WeakAt(st, t, h, k)
  }

  ghost predicate WeakAt(st: Settings, t: Tag, h: seq<Happening>, k: int) {
    0 <= k < |h| && Weak(st, t, h, k) && forall j :: k < j < |h| ==> !Resets(st, t, h, j)
  }

  lemma WeakOneMore(st: Settings, t: Tag, h: seq<Happening>, e: Happening)
    ensures var g := h + [e];
      WeakSinceReset(st, t, g) <==>
      Weak(st, t, g, |h|) || (WeakSinceReset(st, t, h) && !Resets(st, t, g, |h|))
  {
    var g := h + [e];
    PrefixStable(st, t, h, e);
    assert forall k :: 0 <= k < |h| ==> g[..k] == h[..k] && g[k] == h[k];
    assert forall k :: 0 <= k < |h| ==> Weak(st, t, g, k) == Weak(st, t, h, k);
    hide Weak;
    hide Resets;
    if k :| WeakAt(st, t, h, k) {
      if !Resets(st, t, g, |h|) { assert WeakAt(st, t, g, k); }
    }
    if k :| WeakAt(st, t, g, k) {
      if k < |h| { assert WeakAt(st, t, h, k) && !Resets(st, t, g, |h|); }
    }
    if Weak(st, t, g, |h|) { assert WeakAt(st, t, g, |h|); }
  }

  lemma RangeStep(st: Settings, t: Tag, e: Happening)
    requires t.active || t.range.Absent?
    ensures var u := Step(st, t, e);
      var limit := Effective(st, t.threshold);
      var weak := e.Reading? && t.active &&
                  (e.rssi < limit - st.hysteresis || (e.rssi < limit && !t.range.Near?));
      var reset := match e
                   case Reading(_, _) => false
                   case Check(now) => Expired(st, t, now)
                   case Retune(threshold) => threshold != t.threshold
                   case SetActive(on) => !on;
      && (u.active || u.range.Absent?)
      && (weak ==> u.range.Far?)
      && (reset ==> u.range.Absent?)
      && (!weak && !reset ==> u.range == t.range || u.range.Near?)
  {
  }

  /** Over every history of a record: it is FAR exactly when it is not NEAR and a weak
      reading has come since it was last reset; otherwise, not being NEAR, it is ABSENT. */
  lemma {:induction false} FarExactly(st: Settings, t: Tag, h: seq<Happening>)
    requires Fresh(t)
    ensures var u := After(st, t, h);
      && (u.active || u.range.Absent?)
      && (WeakSinceReset(st, t, h) ==> !u.range.Absent?)
      && (u.range.Far? <==> !u.range.Near? && WeakSinceReset(st, t, h))
  {
    if h == [] {
      assert !WeakSinceReset(st, t, []);
    } else {
      var n := |h| - 1;
      var before, last := h[..n], h[n];
      assert before + [last] == h;
      FarExactly(st, t, before);
      WeakOneMore(st, t, before, last);
      RangeStep(st, After(st, t, before), last);
      assert After(st, t, h) == Step(st, After(st, t, before), last);
      hide Step;
      hide WeakSinceReset;
    }
  }
}
