/** Transitions held while the bus state is unknown, and what changes what counts as announced. */
module AttendanceHeld {
  import opened Basics
  import opened Attendance
  import opened AttendanceProofs

  // ---- the held transition of one child ----

  /** Each child has at most one held transition. */
  ghost predicate HeldOnce(held: seq<Held>) {
    forall i, j :: 0 <= i < j < |held| ==> held[i].child != held[j].child
  }

  function Lookup(held: seq<Held>, c: Child): Option<Transition> {
    if held == [] then None
    else if held[|held| - 1].child == c then Some(held[|held| - 1].transition)
    else Lookup(held[..|held| - 1], c)
  }

  lemma {:induction false} LookupNone(held: seq<Held>, c: Child)
    ensures Lookup(held, c) == None <==> forall k :: 0 <= k < |held| ==> held[k].child != c
  {
    if held != [] { LookupNone(held[..|held| - 1], c); }
  }

  lemma {:induction false} LookupFinds(held: seq<Held>, k: nat)
    requires HeldOnce(held) && k < |held|
    ensures Lookup(held, held[k].child) == Some(held[k].transition)
  {
    if k < |held| - 1 { LookupFinds(held[..|held| - 1], k); }
  }

  lemma {:induction false} LookupBehind(first: Held, held: seq<Held>, c: Child)
    requires HeldOnce([first] + held)
    ensures Lookup([first] + held, c) == if first.child == c then Some(first.transition) else Lookup(held, c)
  {
    if held == [] {
      assert ([first] + held)[..0] == [];
    } else {
      var n := |held| - 1;
      assert ([first] + held)[..n + 1] == [first] + held[..n];
      assert ([first] + held)[n + 1] == held[n];
      assert first.child != held[n].child by { assert ([first] + held)[0] == first; }
      OnceBefore([first] + held, n + 1);
      LookupBehind(first, held[..n], c);
    }
  }

  lemma OnceBefore(held: seq<Held>, n: nat)
    requires HeldOnce(held) && n <= |held|
    ensures HeldOnce(held[..n]) && HeldOnce(held[n..])
  {
  }

  lemma {:induction false} PutReplaces(held: seq<Held>, c: Child, t: Transition, d: Child)
    requires HeldOnce(held)
    ensures HeldOnce(Put(held, c, t))
    ensures Lookup(Put(held, c, t), d) == if d == c then Some(t) else Lookup(held, d)
    ensures forall h :: h in Put(held, c, t) ==> h.child == c || h in held
  {
    if held != [] {
      var rest := held[1..];
      OnceBefore(held, 1);
      assert [held[0]] + rest == held;
      LookupBehind(held[0], rest, d);
      if held[0].child == c {
        assert HeldOnce([Held(c, t)] + rest) by {
          forall i, j | 0 <= i < j < |held| ensures ([Held(c, t)] + rest)[i].child != ([Held(c, t)] + rest)[j].child {
            assert held[i].child != held[j].child;
          }
        }
        LookupBehind(Held(c, t), rest, d);
      } else {
        PutReplaces(rest, c, t, d);
        var p := Put(rest, c, t);
        assert HeldOnce([held[0]] + p) by {
          forall i, j | 0 <= i < j < |p| + 1 ensures ([held[0]] + p)[i].child != ([held[0]] + p)[j].child {
            if i == 0 { assert p[j - 1] in p; }
          }
        }
        LookupBehind(held[0], p, d);
      }
    } else {
      assert [Held(c, t)][..0] == [];
    }
  }

  lemma {:induction false} WithoutRemoves(held: seq<Held>, c: Child, d: Child)
    requires HeldOnce(held)
    ensures HeldOnce(Without(held, c))
    ensures Lookup(Without(held, c), d) == if d == c then None else Lookup(held, d)
  {
    if held != [] {
      hide HeldOnce, Lookup;
      var n := |held| - 1;
      var before, last := held[..n], held[n];
      assert before + [last] == held;
      OnceBefore(held, n);
      WithoutRemoves(before, c, d);
      var w := Without(before, c);
      assert Without(held, c) == if last.child == c then w else w + [last] by { assert w + [] == w; }
      hide Without;
      AppendOnce(before, w, last);
      LookupLast(w, last, d);
      LookupLast(before, last, d);
    }
  }

  lemma LookupLast(held: seq<Held>, last: Held, d: Child)
    ensures Lookup(held + [last], d) == if last.child == d then Some(last.transition) else Lookup(held, d)
  {
    assert (held + [last])[..|held|] == held;
  }

  lemma AppendOnce(held: seq<Held>, part: seq<Held>, last: Held)
    requires HeldOnce(held + [last]) && HeldOnce(part) && forall h :: h in part ==> h in held
    ensures HeldOnce(part + [last])
  {
    forall i | 0 <= i < |part| ensures part[i].child != last.child {
      assert part[i] in held;
      var k :| 0 <= k < |held| && held[k] == part[i];
      assert (held + [last])[k].child != (held + [last])[|held|].child;
    }
  }

  lemma {:induction false} WithoutAllSome(held: seq<Held>, gone: set<Child>)
    ensures forall h :: h in WithoutAll(held, gone) ==> h in held
  {
    if held != [] {
      var n := |held| - 1;
      WithoutAllSome(held[..n], gone);
      forall h | h in WithoutAll(held, gone) ensures h in held {
        assert h in held[..n] || h == held[n];
      }
    }
  }

  lemma {:induction false} WithoutAllRemoves(held: seq<Held>, gone: set<Child>, d: Child)
    requires HeldOnce(held)
    ensures HeldOnce(WithoutAll(held, gone))
    ensures Lookup(WithoutAll(held, gone), d) == if d in gone then None else Lookup(held, d)
  {
    if held != [] {
      hide HeldOnce, Lookup;
      var n := |held| - 1;
      var before, last := held[..n], held[n];
      assert before + [last] == held;
      OnceBefore(held, n);
      WithoutAllRemoves(before, gone, d);
      WithoutAllSome(before, gone);
      var w := WithoutAll(before, gone);
      assert WithoutAll(held, gone) == if last.child in gone then w else w + [last];
      hide WithoutAll;
      AppendOnce(before, w, last);
      LookupLast(w, last, d);
      LookupLast(before, last, d);
    }
  }

  // ---- over runs ----

  /** What is held for the child after an act: only the last change reported while the bus
      state is unknown, until the bus attends or the child is no longer followed. */
  function HeldAfter(s: Relay, a: Act, c: Child, was: Option<Transition>): Option<Transition> {
    match a
    case BeaconState(d, Given(r), retained, _) =>
      if d != c then was
      else if !ChildActive(s, c) then None
      else if !retained && s.bus == None && OldState(s, c) != NewState(r)
      then Some(Transition(OldState(s, c), NewState(r), r.hasRssi, r.timestamp))
      else was
    case BusState(state, retained, _) =>
      if !retained && state != s.bus && (state == Some("active") || state == Some("exit_grace")) then None else was
    case Roster(records) => if c in Pruned(s, records) then None else was
    case _ => was
  }

  function HeldSpec(s: Relay, acts: seq<Act>, c: Child): Option<Transition> {
    if acts == [] then Lookup(s.book.held, c)
    else
      var before := acts[..|acts| - 1];
      HeldAfter(Run(s, before), acts[|acts| - 1], c, HeldSpec(s, before, c))
  }

  /** What an emission leaves alone for every child but its own, and altogether. */
  ghost predicate Untouched(s: Relay, s1: Relay) {
    s1 == s.(book := s.book.(pending := s1.book.pending), queue := s1.queue)
  }

  lemma EmitTouches(s: Relay, c: Child, t: Transition, room: set<Child>)
    ensures Untouched(s, Emit(s, c, t, room))
  {
  }

  lemma {:induction false} EmitAllTouches(s: Relay, held: seq<Held>, room: set<Child>)
    ensures Untouched(s, EmitAll(s, held, room))
  {
    hide Emit;
    if held != [] {
      var n := |held| - 1;
      EmitAllTouches(s, held[..n], room);
      EmitTouches(EmitAll(s, held[..n], room), held[n].child, held[n].transition, room);
    }
  }

  lemma FlushHolds(s: Relay, room: set<Child>, c: Child)
    ensures var f := Flush(s, room);
      f.book.held == if s.bus.Some? && Attends(s.bus.value) then [] else s.book.held
  {
    hide EmitAll;
    EmitAllTouches(s.(book := s.book.(held := [])), s.book.held, room);
  }

  lemma ReportHolds(s: Relay, d: Child, r: Report, retained: bool, room: set<Child>, c: Child)
    requires HeldOnce(s.book.held)
    ensures var s1 := OnReport(s, d, r, retained, room);
      && HeldOnce(s1.book.held)
      && Lookup(s1.book.held, c) == HeldAfter(s, BeaconState(d, Given(r), retained, room), c, Lookup(s.book.held, c))
  {
    hide Emit, Put, Without, Lookup, HeldOnce;
    var t := Transition(OldState(s, d), NewState(r), r.hasRssi, r.timestamp);
    EmitTouches(Seed(Noted(s, d, r), d, r, retained), d, t, room);
    PutReplaces(s.book.held, d, t, c);
    WithoutRemoves(s.book.held, d, c);
  }

  lemma StepHolds(s: Relay, a: Act, c: Child)
    requires HeldOnce(s.book.held)
    ensures HeldOnce(Step(s, a).book.held)
    ensures Lookup(Step(s, a).book.held, c) == HeldAfter(s, a, c, Lookup(s.book.held, c))
  {
    hide OnReport, Flush, WithoutAll, Lookup;
    match a
    case BeaconState(d, Given(r), retained, room) => ReportHolds(s, d, r, retained, room, c);
    case BusState(state, retained, room) =>
      FlushHolds(s.(bus := state), room, c);
      LookupNone([], c);
    case Roster(records) => WithoutAllRemoves(s.book.held, Pruned(s, records), c);
    case _ =>
  }

  /** Whatever arrives, what is held for each child is that, once. */
  lemma {:induction false} HeldExactly(s: Relay, acts: seq<Act>, c: Child)
    requires HeldOnce(s.book.held)
    ensures HeldOnce(Run(s, acts).book.held)
    ensures Lookup(Run(s, acts).book.held, c) == HeldSpec(s, acts, c)
  {
    hide Step, HeldOnce, Lookup;
    if acts != [] {
      HeldExactly(s, acts[..|acts| - 1], c);
      StepHolds(Run(s, acts[..|acts| - 1]), acts[|acts| - 1], c);
    }
  }

  /** The last state reported for the child, Unset after an empty message or once it is
      pruned; a report without a state leaves it. */
  function LastState(s: Relay, acts: seq<Act>, c: Child): Reported {
    if acts == [] then OldState(s, c)
    else
      var before, a := acts[..|acts| - 1], acts[|acts| - 1];
      match a
      case BeaconState(d, Blank, _, _) => if d == c then Unset else LastState(s, before, c)
      case BeaconState(d, Given(r), _, _) =>
        if d == c && r.state.Some? then r.state.value else LastState(s, before, c)
      case Roster(records) => if c in Pruned(Run(s, before), records) then Unset else LastState(s, before, c)
      case _ => LastState(s, before, c)
  }

  lemma StepStates(s: Relay, a: Act, c: Child)
    ensures OldState(Step(s, a), c) ==
      (match a
       case BeaconState(d, Blank, _, _) => if d == c then Unset else OldState(s, c)
       case BeaconState(d, Given(r), _, _) => if d == c && r.state.Some? then r.state.value else OldState(s, c)
       case Roster(records) => if c in Pruned(s, records) then Unset else OldState(s, c)
       case _ => OldState(s, c))
  {
    hide Emit, EmitAll, Put, Without, WithoutAll;
    match a
    case BeaconState(d, Given(r), retained, room) =>
      EmitTouches(Seed(Noted(s, d, r), d, r, retained), d,
                  Transition(OldState(s, d), NewState(r), r.hasRssi, r.timestamp), room);
    case BusState(state, retained, room) =>
      EmitAllTouches(s.(bus := state, book := s.book.(held := [])), s.book.held, room);
    case _ =>
  }

  /** Over every run, the state a report is compared with is the last one reported. */
  lemma {:induction false} StatesExactly(s: Relay, acts: seq<Act>, c: Child)
    ensures OldState(Run(s, acts), c) == LastState(s, acts, c)
  {
    hide Step, OldState, Pruned;
    if acts != [] {
      StatesExactly(s, acts[..|acts| - 1], c);
      StepStates(Run(s, acts[..|acts| - 1]), acts[|acts| - 1], c);
    }
  }

  // ---- the replay ----

  /** The two relays agree on everything an emission about the child looks at. */
  ghost predicate SameFor(s: Relay, s1: Relay, c: Child) {
    && s1.roster == s.roster && s1.rosterLoaded == s.rosterLoaded && s1.sentKeys == s.sentKeys
    && (forall kind :: Marked(s1.book.notified, c, kind) <==> Marked(s.book.notified, c, kind))
    && (c in s1.book.pending <==> c in s.book.pending)
    && (forall kind :: Marked(s1.book.pending, c, kind) <==> Marked(s.book.pending, c, kind))
    && JobsOf(s1.queue, c) == JobsOf(s.queue, c)
  }

  lemma EmitAboutOther(s: Relay, d: Child, t: Transition, room: set<Child>, c: Child)
    requires c != d
    ensures SameFor(s, Emit(s, d, t, room), c)
  {
    var kind := if Kind(s, d, t).Some? then Kind(s, d, t).value else Near;
    JobsOfAppend(s.queue, Job(d, kind, JobKey(d, t.before, t.after, t.timestamp)), c);
    hide JobsOf, Kind, Duplicate, ChildActive;
  }

  /** With nothing about the child on its way, a transition queues its message exactly when
      the child is active, the message is due, its key is new and the queue has room. */
  lemma EmitQueuesExactly(s: Relay, c: Child, t: Transition, room: set<Child>, kind: Reported)
    requires c !in s.book.pending && JobsOf(s.queue, c) == []
    ensures JobsOf(Emit(s, c, t, room).queue, c) == [kind] <==> ReplayDue(s, c, t, room, kind)
  {
    var key := JobKey(c, t.before, t.after, t.timestamp);
    JobsOfAppend(s.queue, Job(c, Near, key), c);
    JobsOfAppend(s.queue, Job(c, Absent, key), c);
    assert [] + [Near] == [Near] && [] + [Absent] == [Absent] && [Near] != [] && [Absent] != [];
    hide JobsOf;
  }

  /** The transition calls for a message of this kind, and nothing stands against it. */
  predicate ReplayDue(s: Relay, c: Child, t: Transition, room: set<Child>, kind: Reported) {
    && (!s.rosterLoaded || (c in s.roster && s.roster[c] == Active))
    && JobKey(c, t.before, t.after, t.timestamp) !in s.sentKeys && c in room
    && match kind
       case Near => t.after == Near && !Marked(s.book.notified, c, Near)
       case Absent =>
         (t.after == Absent || (t.after == Far && !t.hasRssi)) && Marked(s.book.notified, c, Near)
       case _ => false
  }

  lemma {:induction false} EmitAllAboutOthers(s: Relay, held: seq<Held>, room: set<Child>, c: Child)
    requires Lookup(held, c) == None
    ensures SameFor(s, EmitAll(s, held, room), c)
  {
    hide Emit, JobsOf;
    if held != [] {
      var n := |held| - 1;
      EmitAllAboutOthers(s, held[..n], room, c);
      EmitAboutOther(EmitAll(s, held[..n], room), held[n].child, held[n].transition, room, c);
    }
  }

  lemma {:induction false} EmitAllQueues(s: Relay, held: seq<Held>, room: set<Child>, c: Child, kind: Reported)
    requires HeldOnce(held) && c !in s.book.pending && JobsOf(s.queue, c) == []
    ensures var t := Lookup(held, c);
      JobsOf(EmitAll(s, held, room).queue, c) == [kind] <==> t.Some? && ReplayDue(s, c, t.value, room, kind)
  {
    hide Emit, JobsOf;
    if held != [] {
      var n := |held| - 1;
      var last := held[n];
      OnceBefore(held, n);
      var before := EmitAll(s, held[..n], room);
      if last.child == c {
        LookupNone(held[..n], c);
        EmitAllAboutOthers(s, held[..n], room, c);
        EmitQueuesExactly(before, c, last.transition, room, kind);
        hide EmitAll, Lookup, HeldOnce;
      } else {
        EmitAllQueues(s, held[..n], room, c, kind);
        EmitAboutOther(before, last.child, last.transition, room, c);
        hide EmitAll, HeldOnce, ReplayDue;
      }
    }
  }

  /** Held transitions are replayed exactly when a live bus state turns to "active" or
      "exit_grace" from anything else: with no send about the child on its way, its message
      is queued if and only if that happens, one is held for it and it is due. */
  lemma HeldSentExactly(s: Relay, state: Option<string>, retained: bool, room: set<Child>, c: Child, kind: Reported)
    requires HeldOnce(s.book.held) && PendingOk(s, c) && JobsOf(s.queue, c) == []
    ensures var t := Lookup(s.book.held, c);
      JobsOf(OnBusState(s, state, retained, room).queue, c) == [kind] <==>
        && !retained && s.bus != state && (state == Some("active") || state == Some("exit_grace"))
        && t.Some? && ReplayDue(s, c, t.value, room, kind)
  {
    var s1 := s.(bus := state, book := s.book.(held := []));
    assert [kind] != [];
    EmitAllQueues(s1, s.book.held, room, c, kind);
    LookupNone(s.book.held, c);
    hide EmitAll, JobsOf, Lookup, HeldOnce;
  }

  // ---- what counts as announced ----

  function NotifiedAs(s: Relay, c: Child): Option<Reported> {
    if c in s.book.notified then Some(s.book.notified[c]) else None
  }

  /** What counts as announced for a child changes only by a retained near or absent report,
      by a message that got through, and by the child no longer being followed. */
  lemma NotifiedExactly(s: Relay, a: Act, c: Child)
    ensures NotifiedAs(Step(s, a), c) ==
      (match a
       case BeaconState(d, Given(r), retained, _) =>
         if d == c && s.rosterLoaded && !(c in s.roster && s.roster[c] == Active) then None
         else if d == c && retained && (r.state == Some(Near) || r.state == Some(Absent)) then r.state
         else NotifiedAs(s, c)
       case Roster(records) =>
         if (c in s.roster && c !in records) || (c in records && records[c] == Inactive) then None
         else NotifiedAs(s, c)
       case Resolve(posted) =>
         if s.queue != [] && s.queue[0].child == c && (posted || s.queue[0].key in s.sentKeys)
         then Some(s.queue[0].kind)
         else NotifiedAs(s, c)
       case _ => NotifiedAs(s, c))
  {
    hide Emit, EmitAll, Put, Without, WithoutAll;
    match a
    case BeaconState(d, Given(r), retained, room) =>
      EmitTouches(Seed(Noted(s, d, r), d, r, retained), d,
                  Transition(OldState(s, d), NewState(r), r.hasRssi, r.timestamp), room);
    case BusState(state, retained, room) =>
      EmitAllTouches(s.(bus := state, book := s.book.(held := [])), s.book.held, room);
    case _ =>
  }
}
