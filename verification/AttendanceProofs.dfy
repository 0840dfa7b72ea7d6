/** When the attendance messages about a child alternate. */
module AttendanceProofs {
  import opened Basics
  import opened Attendance

  // ---- the queue, seen from one child ----

  /** Kinds of the jobs for this child that are not yet resolved. */
  function JobsOf(queue: seq<Job>, c: Child): seq<Reported> {
    if queue == [] then []
    else (if queue[0].child == c then [queue[0].kind] else []) + JobsOf(queue[1..], c)
  }

  lemma {:induction false} JobsOfAppend(queue: seq<Job>, job: Job, c: Child)
    ensures JobsOf(queue + [job], c) == JobsOf(queue, c) + if job.child == c then [job.kind] else []
  {
    if queue == [] {
      assert [job][1..] == [];
    } else {
      JobsOfAppend(queue[1..], job, c);
      assert (queue + [job])[1..] == queue[1..] + [job];
    }
  }

  /** No resolved key belongs to an unresolved job of this child, and keys name their child. */
  ghost predicate QueueOk(s: Relay, c: Child) {
    forall job :: job in s.queue ==>
      job.key.child == job.child && (job.child == c ==> job.key !in s.sentKeys)
  }

  /** A pending mark stands for a job on its way. */
  ghost predicate PendingOk(s: Relay, c: Child) {
    c in s.book.pending ==> JobsOf(s.queue, c) == [s.book.pending[c]]
  }

  ghost predicate OneOnTheWay(s: Relay, c: Child) {
    |JobsOf(s.queue, c)| <= 1
  }

  predicate Alternates(kinds: seq<Reported>) {
    forall k :: 0 < k < |kinds| ==> kinds[k] != kinds[k - 1]
  }

  /** The last message is what counts as announced, and the job on its way differs from it. */
  ghost predicate Track(s: Relay, c: Child, kinds: seq<Reported>) {
    && QueueOk(s, c) && PendingOk(s, c) && Alternates(kinds)
    && (kinds != [] ==> Marked(s.book.notified, c, kinds[|kinds| - 1]))
    && (kinds != [] && JobsOf(s.queue, c) != [] ==> JobsOf(s.queue, c)[0] != kinds[|kinds| - 1])
  }

  // ---- one transition ----

  lemma SendToOther(s: Relay, c: Child, kind: Reported, t: Transition, room: set<Child>, d: Child, kinds: seq<Reported>)
    requires Track(s, d, kinds) && c != d
    ensures Track(Send(s, c, kind, t, room), d, kinds)
    ensures JobsOf(Send(s, c, kind, t, room).queue, d) == JobsOf(s.queue, d)
  {
    JobsOfAppend(s.queue, Job(c, kind, JobKey(c, t.before, t.after, t.timestamp)), d);
    hide JobsOf;
    hide Alternates;
  }

  lemma SendToSelf(s: Relay, c: Child, kind: Reported, t: Transition, room: set<Child>, kinds: seq<Reported>)
    requires Track(s, c, kinds) && !Duplicate(s, c, kind)
    ensures var s1 := Send(s, c, kind, t, room);
      && |JobsOf(s.queue, c)| <= |JobsOf(s1.queue, c)|
      && (OneOnTheWay(s1, c) ==> Track(s1, c, kinds))
  {
    JobsOfAppend(s.queue, Job(c, kind, JobKey(c, t.before, t.after, t.timestamp)), c);
    hide JobsOf;
    hide Alternates;
  }

  lemma EmitKeepsTrack(s: Relay, c: Child, t: Transition, room: set<Child>, d: Child, kinds: seq<Reported>)
    requires Track(s, d, kinds)
    ensures var s1 := Emit(s, c, t, room);
      && |JobsOf(s.queue, d)| <= |JobsOf(s1.queue, d)|
      && (OneOnTheWay(s1, d) ==> Track(s1, d, kinds))
  {
    hide Track;
    hide Send;
    hide JobsOf;
    var kind := Kind(s, c, t);
    if ChildActive(s, c) && kind.Some? && !Duplicate(s, c, kind.value) {
      if c == d {
        SendToSelf(s, c, kind.value, t, room, kinds);
      } else {
        SendToOther(s, c, kind.value, t, room, d, kinds);
      }
    }
  }

  lemma {:induction false} EmitAllKeepsTrack(
      s: Relay, held: seq<Held>, room: set<Child>, d: Child, kinds: seq<Reported>)
    requires Track(s, d, kinds)
    ensures var s1 := EmitAll(s, held, room);
      && |JobsOf(s.queue, d)| <= |JobsOf(s1.queue, d)|
      && (OneOnTheWay(s1, d) ==> Track(s1, d, kinds))
  {
    hide Emit;
    hide Track;
    if held != [] {
      var n := |held| - 1;
      EmitAllKeepsTrack(s, held[..n], room, d, kinds);
      var before := EmitAll(s, held[..n], room);
      if OneOnTheWay(before, d) {
        EmitKeepsTrack(before, held[n].child, held[n].transition, room, d, kinds);
      } else {
        EmitOnlyAdds(before, held[n].child, held[n].transition, room, d);
      }
    }
  }

  lemma EmitOnlyAdds(s: Relay, c: Child, t: Transition, room: set<Child>, d: Child)
    ensures |JobsOf(s.queue, d)| <= |JobsOf(Emit(s, c, t, room).queue, d)|
  {
    var kind := Kind(s, c, t);
    if kind.Some? {
      JobsOfAppend(s.queue, Job(c, kind.value, JobKey(c, t.before, t.after, t.timestamp)), d);
    }
    hide JobsOf;
    hide Kind;
    hide Duplicate;
  }

  // ---- one act ----

  /** The act replaces what is known about this child: it leaves the roster, it is
      inactive, or a retained message says where it already is. */
  predicate Resets(s: Relay, a: Act, c: Child) {
    match a
    case BeaconState(child, Given(r), retained, _) =>
      child == c && (!ChildActive(s, c) || (retained && (NewState(r) == Near || NewState(r) == Absent)))
    case Roster(records) => c in Pruned(s, records)
    case _ => false
  }

  /** Taking the oldest job off the queue and, where it was posted, noting its key. */
  lemma KeysStayFresh(s: Relay, s1: Relay, c: Child)
    requires QueueOk(s, c) && s.queue != [] && s1.queue == s.queue[1..]
    requires s1.sentKeys <= s.sentKeys + {s.queue[0].key}
    requires s.queue[0].child == c ==> forall j :: j in s1.queue ==> j.child != c
    ensures QueueOk(s1, c)
  {
    assert s.queue[0] in s.queue;
    assert forall j :: j in s.queue[1..] ==> j in s.queue;
  }

  lemma ResolveOther(s: Relay, posted: bool, c: Child, kinds: seq<Reported>)
    requires Track(s, c, kinds) && QueueOk(s, c) && s.queue != [] && s.queue[0].child != c
    ensures Track(OnResolve(s, posted), c, kinds)
  {
    var s1 := OnResolve(s, posted);
    assert JobsOf(s.queue, c) == JobsOf(s.queue[1..], c);
    KeysStayFresh(s, s1, c);
    hide JobsOf;
    hide Track;
    hide QueueOk;
    AlikeForChild(s, s1, c, kinds);
  }

  lemma OnlyJob(s: Relay, c: Child)
    requires OneOnTheWay(s, c) && s.queue != [] && s.queue[0].child == c
    ensures JobsOf(s.queue, c) == [s.queue[0].kind] && JobsOf(s.queue[1..], c) == []
  {
    assert JobsOf(s.queue, c) == [s.queue[0].kind] + JobsOf(s.queue[1..], c);
  }

  lemma OneMoreKind(kinds: seq<Reported>, kind: Reported)
    requires Alternates(kinds) && (kinds != [] ==> kinds[|kinds| - 1] != kind)
    ensures Alternates(kinds + [kind])
  {
  }

  /** The marks after the child's only job is resolved. */
  lemma ResolvedMarks(s: Relay, posted: bool, c: Child)
    requires QueueOk(s, c) && PendingOk(s, c) && s.queue != [] && s.queue[0].child == c
    requires JobsOf(s.queue, c) == [s.queue[0].kind]
    ensures var t := OnResolve(s, posted);
      && c !in t.book.pending
      && t.book.notified == if posted then s.book.notified[c := s.queue[0].kind] else s.book.notified
  {
    assert s.queue[0] in s.queue;
    hide JobsOf;
  }

  lemma ResolveSelf(s: Relay, posted: bool, c: Child, kinds: seq<Reported>)
    requires Track(s, c, kinds) && OneOnTheWay(s, c) && s.queue != [] && s.queue[0].child == c
    ensures Track(OnResolve(s, posted), c, if posted then kinds + [s.queue[0].kind] else kinds)
  {
    OnlyJob(s, c);
    NoneLeft(s.queue[1..], c);
    ResolvedMarks(s, posted, c);
    var t := OnResolve(s, posted);
    assert t.queue == s.queue[1..];
    KeysStayFresh(s, t, c);
    hide OnResolve;
    hide JobsOf;
    hide QueueOk;
    if posted { OneMoreKind(kinds, s.queue[0].kind); }
    hide Alternates;
  }

  lemma ResolveKeepsTrack(s: Relay, posted: bool, c: Child, kinds: seq<Reported>)
    requires Track(s, c, kinds) && OneOnTheWay(s, c)
    ensures var job := Posts(s, Resolve(posted));
      Track(OnResolve(s, posted), c, if job.Some? && job.value.child == c then kinds + [job.value.kind] else kinds)
  {
    if s.queue != [] {
      assert s.queue[0] in s.queue;
      assert s.queue[0].child == c ==> s.queue[0].key !in s.sentKeys;
      if s.queue[0].child == c {
        ResolveSelf(s, posted, c, kinds);
      } else {
        ResolveOther(s, posted, c, kinds);
      }
    }
    hide Track;
    hide OnResolve;
  }

  lemma {:induction false} NoneLeft(queue: seq<Job>, c: Child)
    requires JobsOf(queue, c) == []
    ensures forall j :: j in queue ==> j.child != c
  {
    if queue != [] {
      NoneLeft(queue[1..], c);
      assert forall j :: j in queue ==> j == queue[0] || j in queue[1..];
    }
  }

  lemma AlikeForChild(s: Relay, s1: Relay, c: Child, kinds: seq<Reported>)
    requires Track(s, c, kinds) && QueueOk(s1, c) && JobsOf(s1.queue, c) == JobsOf(s.queue, c)
    requires forall m :: Marked(s1.book.notified, c, m) <==> Marked(s.book.notified, c, m)
    requires c in s1.book.pending ==> c in s.book.pending && s1.book.pending[c] == s.book.pending[c]
    ensures Track(s1, c, kinds)
  {
    hide JobsOf;
    hide QueueOk;
    hide Alternates;
  }

  lemma ReportKeepsTrack(
      s: Relay, c: Child, r: Report, retained: bool, room: set<Child>, d: Child, kinds: seq<Reported>)
    requires Track(s, d, kinds) && !Resets(s, BeaconState(c, Given(r), retained, room), d)
    ensures var s1 := OnReport(s, c, r, retained, room);
      OneOnTheWay(s1, d) ==> Track(s1, d, kinds)
  {
    var s1 := Noted(s, c, r);
    AlikeForChild(s, s1, d, kinds);
    if !ChildActive(s1, c) {
      AlikeForChild(s, ForgetAttendance(s1, c), d, kinds);
    } else {
      var s2 := Seed(s1, c, r, retained);
      AlikeForChild(s, s2, d, kinds);
      var t := Transition(OldState(s, c), NewState(r), r.hasRssi, r.timestamp);
      EmitKeepsTrack(s2, c, t, room, d, kinds);
      AlikeForChild(s2, s2.(book := s2.book.(held := Put(s2.book.held, c, t))), d, kinds);
      hide Emit;
      hide Track;
    }
  }

  lemma StepKeepsTrack(s: Relay, a: Act, c: Child, kinds: seq<Reported>)
    requires Track(s, c, kinds) && OneOnTheWay(s, c) && OneOnTheWay(Step(s, a), c) && !Resets(s, a, c)
    ensures var job := Posts(s, a);
      Track(Step(s, a), c, if job.Some? && job.value.child == c then kinds + [job.value.kind] else kinds)
  {
    match a
    case BeaconState(child, Given(r), retained, room) =>
      ReportKeepsTrack(s, child, r, retained, room, c, kinds);
    case BeaconState(child, Blank, _, _) => AlikeForChild(s, Step(s, a), c, kinds);
    case BeaconState(_, EmptyObject, _, _) =>
    case BeaconState(_, NotAnObject, _, _) =>
    case BusState(state, _, room) =>
      var s1 := s.(bus := state);
      var s2 := s1.(book := s1.book.(held := []));
      AlikeForChild(s, s1, c, kinds);
      AlikeForChild(s, s2, c, kinds);
      EmitAllKeepsTrack(s2, s.book.held, room, c, kinds);
      hide EmitAll;
      hide Track;
    case Roster(records) => AlikeForChild(s, Step(s, a), c, kinds);
    case Resolve(posted) => ResolveKeepsTrack(s, posted, c, kinds);
    case Expire(_) => AlikeForChild(s, Step(s, a), c, kinds);
  }

  // ---- runs ----

  /** Every send about this child resolves before its next one is queued, and nothing
      resets what is known about it. */
  ghost predicate Orderly(s: Relay, acts: seq<Act>, c: Child) {
    && (forall k :: 0 <= k <= |acts| ==> OneOnTheWay(Run(s, acts[..k]), c))
    && (forall k :: 0 <= k < |acts| ==> !Resets(Run(s, acts[..k]), acts[k], c))
  }

  lemma OrderlyParts(s: Relay, acts: seq<Act>, c: Child, n: nat)
    requires Orderly(s, acts, c) && |acts| == n + 1
    ensures Orderly(s, acts[..n], c) && !Resets(Run(s, acts[..n]), acts[n], c)
    ensures OneOnTheWay(Run(s, acts[..n]), c) && OneOnTheWay(Step(Run(s, acts[..n]), acts[n]), c)
    ensures acts[..n] + [acts[n]] == acts
  {
    hide Step;
    hide Resets;
    hide OneOnTheWay;
    assert acts[..n + 1] == acts;
    assert OneOnTheWay(Run(s, acts[..n + 1]), c);
    assert forall k :: 0 <= k <= n ==> acts[..n][..k] == acts[..k];
  }

  lemma {:induction false} RunKeepsTrack(s: Relay, acts: seq<Act>, c: Child)
    requires QueueOk(s, c) && PendingOk(s, c) && Orderly(s, acts, c)
    ensures Track(Run(s, acts), c, Messages(s, acts, c))
  {
    if acts != [] {
      hide *;
      var n := |acts| - 1;
      OrderlyParts(s, acts, c, n);
      var before, last := acts[..n], acts[n];
      RunKeepsTrack(s, before, c);
      StepKeepsTrack(Run(s, before), last, c, Messages(s, before, c));
      OneMoreAct(s, before, last, c);
    }
  }

  /** From any point at which no send about the child is unresolved, whatever beacon
      states, bus states, rosters, queue refusals and failed sends follow: the messages
      about the child that reach the channel are strictly entered, exited, entered, ... */
  lemma MessagesAlternate(s: Relay, acts: seq<Act>, c: Child)
    requires QueueOk(s, c) && PendingOk(s, c) && Orderly(s, acts, c)
    ensures Alternates(Messages(s, acts, c))
  {
    RunKeepsTrack(s, acts, c);
  }

  lemma ResetDropsPending(s: Relay, a: Act, c: Child)
    requires Resets(s, a, c)
    ensures c !in Step(s, a).book.pending
    ensures Step(s, a).queue == s.queue && Step(s, a).sentKeys == s.sentKeys
  {
    hide Emit;
  }

  lemma StepKeepsPending(s: Relay, a: Act, c: Child)
    requires QueueOk(s, c) && PendingOk(s, c) && OneOnTheWay(s, c) && OneOnTheWay(Step(s, a), c)
    ensures QueueOk(Step(s, a), c) && PendingOk(Step(s, a), c)
  {
    if Resets(s, a, c) {
      ResetDropsPending(s, a, c);
    } else {
      StepKeepsTrack(s, a, c, []);
    }
    hide Step;
  }

  ghost predicate NeverTwo(acts: seq<Act>, c: Child) {
    forall k :: 0 <= k <= |acts| ==> OneOnTheWay(Run(FRESH, acts[..k]), c)
  }

  lemma NeverTwoParts(acts: seq<Act>, c: Child, n: nat)
    requires NeverTwo(acts, c) && |acts| == n + 1
    ensures NeverTwo(acts[..n], c) && Run(FRESH, acts) == Step(Run(FRESH, acts[..n]), acts[n])
    ensures OneOnTheWay(Run(FRESH, acts[..n]), c) && OneOnTheWay(Run(FRESH, acts), c)
  {
    hide OneOnTheWay;
    hide Step;
    assert acts[..n + 1] == acts;
    assert OneOnTheWay(Run(FRESH, acts[..n + 1]), c);
    assert forall k :: 0 <= k <= n ==> acts[..n][..k] == acts[..k];
  }

  lemma {:induction false} PendingStandsForJob(acts: seq<Act>, c: Child)
    requires NeverTwo(acts, c)
    ensures QueueOk(Run(FRESH, acts), c) && PendingOk(Run(FRESH, acts), c)
  {
    if acts != [] {
      hide *;
      var n := |acts| - 1;
      NeverTwoParts(acts, c, n);
      PendingStandsForJob(acts[..n], c);
      StepKeepsPending(Run(FRESH, acts[..n]), acts[n], c);
    }
  }

  lemma {:induction false} RunSplits(s: Relay, acts: seq<Act>, i: nat)
    requires i <= |acts|
    ensures Run(s, acts) == Run(Run(s, acts[..i]), acts[i..])
  {
    hide Step;
    if i == |acts| {
      assert acts[..i] == acts;
    } else {
      var before := acts[..|acts| - 1];
      RunSplits(s, before, i);
      assert before[..i] == acts[..i];
      assert before[i..] == acts[i..][..|acts| - i - 1];
    }
  }

  /** Over the relay's whole life, while no two sends about the child are on the way at
      once: from any moment on, until the child is next reset, its messages alternate. */
  lemma AlternateBetweenResets(acts: seq<Act>, i: nat, c: Child)
    requires i <= |acts|
    requires forall k :: 0 <= k <= |acts| ==> OneOnTheWay(Run(FRESH, acts[..k]), c)
    requires forall k :: i <= k < |acts| ==> !Resets(Run(FRESH, acts[..k]), acts[k], c)
    ensures Alternates(Messages(Run(FRESH, acts[..i]), acts[i..], c))
  {
    hide Step;
    hide Resets;
    hide Messages;
    var s := Run(FRESH, acts[..i]);
    forall k | 0 <= k <= i ensures OneOnTheWay(Run(FRESH, acts[..i][..k]), c) {
      assert acts[..i][..k] == acts[..k];
    }
    PendingStandsForJob(acts[..i], c);
    forall k | 0 <= k <= |acts| - i ensures Run(s, acts[i..][..k]) == Run(FRESH, acts[..i + k]) {
      RunSplits(FRESH, acts[..i + k], i);
      assert acts[..i + k][..i] == acts[..i];
      assert acts[..i + k][i..] == acts[i..][..k];
    }
    assert Orderly(s, acts[i..], c) by {
      forall k | 0 <= k <= |acts| - i ensures OneOnTheWay(Run(s, acts[i..][..k]), c) {
        assert OneOnTheWay(Run(FRESH, acts[..i + k]), c);
      }
      forall k | 0 <= k < |acts| - i ensures !Resets(Run(s, acts[i..][..k]), acts[i..][k], c) {
        assert !Resets(Run(FRESH, acts[..i + k]), acts[i + k], c);
      }
    }
    MessagesAlternate(s, acts[i..], c);
  }

  // ---- and are sent when due ----

  /** The report calls for a message of this kind, given what is announced so far. */
  predicate Due(s: Relay, c: Child, r: Report, kind: Reported) {
    match kind
    case Near => NewState(r) == Near && !Marked(s.book.notified, c, Near)
    case Absent =>
      (NewState(r) == Absent || (NewState(r) == Far && !r.hasRssi)) && Marked(s.book.notified, c, Near)
    case _ => false
  }

  /** With no send about the child on its way, a live report queues a message exactly when
      the child is active, the bus state attends, the beacon state changed, the message is
      due, its key is new and the queue has room; and it queues just that one. */
  lemma QueuedExactly(s: Relay, c: Child, r: Report, room: set<Child>, kind: Reported)
    requires PendingOk(s, c) && JobsOf(s.queue, c) == []
    ensures var s1 := OnReport(s, c, r, false, room);
      JobsOf(s1.queue, c) == [kind] <==>
        && ChildActive(s, c) && (s.bus == Some("active") || s.bus == Some("exit_grace"))
        && OldState(s, c) != NewState(r) && Due(s, c, r, kind)
        && JobKey(c, OldState(s, c), NewState(r), r.timestamp) !in s.sentKeys && c in room
  {
    var t := Transition(OldState(s, c), NewState(r), r.hasRssi, r.timestamp);
    var key := JobKey(c, t.before, t.after, t.timestamp);
    JobsOfAppend(s.queue, Job(c, Near, key), c);
    JobsOfAppend(s.queue, Job(c, Absent, key), c);
    assert [] + [Near] == [Near] && [] + [Absent] == [Absent] && [Near] != [] && [Absent] != [];
    assert c !in s.book.pending;
    hide JobsOf;
  }

  // ---- overlapping sends ----

  /** A transition of the child with room in the queue. */
  function Told(c: Child, state: Reported, timestamp: string): Act {
    BeaconState(c, Given(Report(Some(state), false, timestamp)), false, {c})
  }

  function Mark(c: Child, kind: Option<Reported>): map<Child, Reported> {
    if kind.Some? then map[c := kind.value] else map[]
  }

  /** One child on an active bus, no roster yet. */
  function Scene(c: Child, state: Reported, notified: Option<Reported>, pending: Option<Reported>,
                 sent: set<JobKey>, queue: seq<Job>): Relay {
    Relay(map[], false, Some("active"), Book(map[c := state], Mark(c, notified), Mark(c, pending), []), sent, queue)
  }

  lemma Tell(
      c: Child, state: Reported, n: Option<Reported>, p: Option<Reported>, sent: set<JobKey>, queue: seq<Job>,
      after: Reported, timestamp: string)
    requires state != after && (after == Near || after == Absent)
    requires JobKey(c, state, after, timestamp) !in sent
    ensures Posts(Scene(c, state, n, p, sent, queue), Told(c, after, timestamp)) == None
    ensures var s1 := Step(Scene(c, state, n, p, sent, queue), Told(c, after, timestamp));
      if n == Some(after) || p == Some(after) || (after == Absent && n != Some(Near) && p != Some(Near))
      then s1 == Scene(c, after, n, p, sent, queue)
      else s1 == Scene(c, after, n, Some(after), sent, queue + [Job(c, after, JobKey(c, state, after, timestamp))])
  {
    TellEmits(c, state, n, p, sent, queue, after, timestamp);
    assert Mark(c, p)[c := after] == map[c := after];
    hide OnReport;
    hide Step;
  }

  lemma TellEmits(
      c: Child, state: Reported, n: Option<Reported>, p: Option<Reported>, sent: set<JobKey>, queue: seq<Job>,
      after: Reported, timestamp: string)
    requires state != after
    ensures Step(Scene(c, state, n, p, sent, queue), Told(c, after, timestamp)) ==
            Emit(Scene(c, after, n, p, sent, queue), c, Transition(state, after, false, timestamp), {c})
  {
    assert map[c := state][c := after] == map[c := after];
    hide Emit;
    hide Mark;
  }

  lemma Posted(
      c: Child, state: Reported, n: Option<Reported>, p: Option<Reported>, sent: set<JobKey>, job: Job, rest: seq<Job>)
    requires job.child == c && job.key !in sent
    ensures var s := Scene(c, state, n, p, sent, [job] + rest);
      && Step(s, Resolve(true)) == Scene(c, state, Some(job.kind), None, sent + {job.key}, rest)
      && Posts(s, Resolve(true)) == Some(job)
  {
    assert Mark(c, n)[c := job.kind] == map[c := job.kind];
    assert Mark(c, p) - {c} == map[];
    assert ([job] + rest)[1..] == rest;
  }

  lemma OneMoreAct(s: Relay, acts: seq<Act>, a: Act, c: Child)
    ensures Run(s, acts + [a]) == Step(Run(s, acts), a)
    ensures var job := Posts(Run(s, acts), a);
      var before := Messages(s, acts, c);
      Messages(s, acts + [a], c) == if job.Some? && job.value.child == c then before + [job.value.kind] else before
  {
    hide Step;
    hide Posts;
    assert (acts + [a])[..|acts + [a]| - 1] == acts;
  }

  /** The pending mark stands for the last of the child's unresolved sends. */
  ghost predicate Covered(s: Relay, c: Child) {
    var jobs := JobsOf(s.queue, c);
    jobs != [] ==> Marked(s.book.pending, c, jobs[|jobs| - 1])
  }

  /** The transition calls for a message that is not a duplicate. */
  predicate Attempts(s: Relay, c: Child, t: Transition) {
    ChildActive(s, c) && Kind(s, c, t).Some? && !Duplicate(s, c, Kind(s, c, t).value)
  }

  predicate Refused(s: Relay, c: Child, t: Transition, room: set<Child>) {
    JobKey(c, t.before, t.after, t.timestamp) in s.sentKeys || c !in room
  }

  /** A message of the kind of the last unresolved one is queued behind it exactly when it
      is attempted and accepted; while the mark covers the queue that cannot be. */
  lemma RepeatQueuedExactly(s: Relay, c: Child, t: Transition, room: set<Child>)
    requires JobsOf(s.queue, c) != []
    ensures var jobs := JobsOf(s.queue, c);
      var last := jobs[|jobs| - 1];
      var repeated := JobsOf(Emit(s, c, t, room).queue, c) == jobs + [last];
      && (repeated <==> Attempts(s, c, t) && !Refused(s, c, t, room) && Kind(s, c, t) == Some(last))
      && (repeated ==> !Covered(s, c))
  {
    var jobs := JobsOf(s.queue, c);
    var kind := if Kind(s, c, t).Some? then Kind(s, c, t).value else Near;
    JobsOfAppend(s.queue, Job(c, kind, JobKey(c, t.before, t.after, t.timestamp)), c);
    assert (jobs + [kind])[|jobs|] == kind && (jobs + [jobs[|jobs| - 1]])[|jobs|] == jobs[|jobs| - 1];
    hide JobsOf;
    hide Kind;
  }

  /** Resolving the oldest send of several uncovers the rest exactly when it succeeds, or
      fails and is of the kind of the last. */
  lemma ResolveUncoversExactly(s: Relay, posted: bool, c: Child)
    requires Covered(s, c) && s.queue != [] && s.queue[0].child == c
    ensures var jobs := JobsOf(s.queue, c);
      !Covered(OnResolve(s, posted), c) <==>
      (&& 2 <= |jobs|
       && (posted || s.queue[0].key in s.sentKeys || s.queue[0].kind == jobs[|jobs| - 1]))
  {
    assert JobsOf(s.queue, c) == [s.queue[0].kind] + JobsOf(s.queue[1..], c);
    hide JobsOf;
  }

  /** A transition uncovers them exactly when its own message is attempted and refused. */
  lemma EmitUncoversExactly(s: Relay, c: Child, t: Transition, room: set<Child>)
    requires Covered(s, c)
    ensures !Covered(Emit(s, c, t, room), c) <==>
            JobsOf(s.queue, c) != [] && Attempts(s, c, t) && Refused(s, c, t, room)
  {
    var jobs := JobsOf(s.queue, c);
    var kind := if Kind(s, c, t).Some? then Kind(s, c, t).value else Near;
    JobsOfAppend(s.queue, Job(c, kind, JobKey(c, t.before, t.after, t.timestamp)), c);
    assert (jobs + [kind])[|jobs|] == kind;
    hide JobsOf;
    hide Kind;
  }

  /** Without that condition the claim fails: a child that enters and leaves before the
      first message is out, and leaves once more, is reported as exited twice in a row. */
  lemma OverlapRepeatsExit(c: Child) returns (acts: seq<Act>)
    ensures Messages(FRESH, acts, c) == [Near, Absent, Absent]
    ensures Unforced(acts)
  {
    hide Run;
    hide Messages;
    hide Step;
    hide Posts;
    hide Scene;
    hide Unforced;
    var k1, k2, k3 := JobKey(c, Unset, Near, "1"), JobKey(c, Near, Absent, "2"), JobKey(c, Near, Absent, "4");
    var j1, j2, j3 := Job(c, Near, k1), Job(c, Absent, k2), Job(c, Absent, k3);
    acts := [BusState(Some("active"), false, {}), Told(c, Near, "1")];
    EntersFirst(c, acts);
    Tell(c, Near, None, Some(Near), {}, [j1], Absent, "2");
    acts := Next(c, acts, Told(c, Absent, "2"));
    Posted(c, Absent, None, Some(Absent), {}, j1, [j2]);
    acts := Next(c, acts, Resolve(true));
    assert {} + {k1} == {k1};
    Tell(c, Absent, Some(Near), None, {k1}, [j2], Near, "3");
    acts := Next(c, acts, Told(c, Near, "3"));
    Tell(c, Near, Some(Near), None, {k1}, [j2], Absent, "4");
    acts := Next(c, acts, Told(c, Absent, "4"));
    Posted(c, Absent, Some(Near), Some(Absent), {k1}, j2, [j3]);
    acts := Next(c, acts, Resolve(true));
    Posted(c, Absent, Some(Absent), None, {k1} + {k2}, j3, []);
    assert [j3] + [] == [j3];
    acts := Next(c, acts, Resolve(true));
  }

  lemma Next(c: Child, acts: seq<Act>, a: Act) returns (more: seq<Act>)
    requires Unforced(acts) && !a.Roster? && !(a.BeaconState? && a.retained)
    ensures more == acts + [a] && Unforced(more)
    ensures Run(FRESH, more) == Step(Run(FRESH, acts), a)
    ensures var job := Posts(Run(FRESH, acts), a);
      var before := Messages(FRESH, acts, c);
      Messages(FRESH, more, c) == if job.Some? && job.value.child == c then before + [job.value.kind] else before
  {
    hide Run;
    hide Messages;
    hide Step;
    hide Posts;
    more := acts + [a];
    OneMoreAct(FRESH, acts, a, c);
  }

  /** Neither a roster nor a retained message. */
  predicate Unforced(acts: seq<Act>) {
    forall a :: a in acts ==> !(a.Roster? || (a.BeaconState? && a.retained))
  }

  lemma EntersFirst(c: Child, first: seq<Act>)
    requires first == [BusState(Some("active"), false, {}), Told(c, Near, "1")]
    ensures Run(FRESH, first) == Scene(c, Near, None, Some(Near), {}, [Job(c, Near, JobKey(c, Unset, Near, "1"))])
    ensures Messages(FRESH, first, c) == [] && Unforced(first)
  {
    var s1 := Step(FRESH, first[0]);
    assert first[..1] == [first[0]] && first[..1][..0] == [];
    assert Run(FRESH, first[..1]) == s1;
    assert map[][c := Near] == map[c := Near];
    assert Messages(FRESH, first[..1], c) == [];
  }
}
