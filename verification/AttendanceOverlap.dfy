/** Attendance messages while several sends about a child are unresolved: exactly when a
    message can repeat. */
module AttendanceOverlap {
  import opened Basics
  import opened Attendance
  import opened AttendanceProofs

  // ---- what the resolves of a queue deliver ----

  /** A resolve for each entry: true is a post that succeeds, false one that is given up. */
  function Resolves(pattern: seq<bool>): (acts: seq<Act>)
    ensures |acts| == |pattern| && forall k :: 0 <= k < |pattern| ==> acts[k] == Resolve(pattern[k])
  {
    seq(|pattern|, k requires 0 <= k < |pattern| => Resolve(pattern[k]))
  }

  /** The jobs about this child that reach the channel: posted, and not sent before. */
  function Picked(queue: seq<Job>, sent: set<JobKey>, pattern: seq<bool>, c: Child): seq<Job> {
    if queue == [] || pattern == [] then []
    else if pattern[0] && queue[0].key !in sent then
      (if queue[0].child == c then [queue[0]] else []) +
      Picked(queue[1..], sent + {queue[0].key}, pattern[1..], c)
    else Picked(queue[1..], sent, pattern[1..], c)
  }

  function Kinds(jobs: seq<Job>): (kinds: seq<Reported>)
    ensures |kinds| == |jobs| && forall k :: 0 <= k < |jobs| ==> kinds[k] == jobs[k].kind
  {
    seq(|jobs|, k requires 0 <= k < |jobs| => jobs[k].kind)
  }

  lemma {:induction false} MessagesAppend(s: Relay, x: seq<Act>, y: seq<Act>, c: Child)
    ensures Run(s, x + y) == Run(Run(s, x), y)
    ensures Messages(s, x + y, c) == Messages(s, x, c) + Messages(Run(s, x), y, c)
  {
    hide Step;
    hide Posts;
    if y == [] {
      assert x + y == x;
    } else {
      var n := |y| - 1;
      MessagesAppend(s, x, y[..n], c);
      assert (x + y)[..|x + y| - 1] == x + y[..n];
    }
  }

  lemma MessagesOfOne(s: Relay, a: Act, c: Child)
    ensures Run(s, [a]) == Step(s, a)
    ensures var job := Posts(s, a);
      Messages(s, [a], c) == if job.Some? && job.value.child == c then [job.value.kind] else []
  {
    hide Step;
    hide Posts;
    assert [a][..0] == [];
    assert Messages(s, [], c) == [];
  }

  lemma OneResolve(s: Relay, posted: bool, pattern: seq<bool>, c: Child)
    ensures Messages(s, Resolves([posted] + pattern), c) ==
            Messages(s, [Resolve(posted)], c) + Messages(OnResolve(s, posted), Resolves(pattern), c)
  {
    MessagesOfOne(s, Resolve(posted), c);
    assert Resolves([posted] + pattern) == [Resolve(posted)] + Resolves(pattern);
    MessagesAppend(s, [Resolve(posted)], Resolves(pattern), c);
    hide OnResolve;
    hide Messages;
    hide Run;
  }

  lemma QueueAfter(s: Relay, posted: bool)
    requires s.queue != []
    ensures var t := OnResolve(s, posted);
      && t.queue == s.queue[1..]
      && t.sentKeys == if posted && s.queue[0].key !in s.sentKeys then s.sentKeys + {s.queue[0].key} else s.sentKeys
  {
  }

  /** What the first resolve of a queue sends, and leaves for the others. */
  lemma PickedFirst(s: Relay, posted: bool, rest: seq<bool>, c: Child)
    ensures var t := OnResolve(s, posted);
      Kinds(Picked(s.queue, s.sentKeys, [posted] + rest, c)) ==
      Messages(s, [Resolve(posted)], c) + Kinds(Picked(t.queue, t.sentKeys, rest, c))
  {
    MessagesOfOne(s, Resolve(posted), c);
    hide Messages;
    assert ([posted] + rest)[1..] == rest;
    if s.queue != [] {
      QueueAfter(s, posted);
      var t := OnResolve(s, posted);
      var p := Picked(t.queue, t.sentKeys, rest, c);
      assert Kinds([s.queue[0]] + p) == [s.queue[0].kind] + Kinds(p);
      assert [] + p == p && [] + Kinds(p) == Kinds(p);
      hide OnResolve;
    }
  }

  /** Resolving the queue sends the picked jobs, in order. */
  lemma {:induction false} ResolvesSendPicked(s: Relay, pattern: seq<bool>, c: Child)
    ensures Messages(s, Resolves(pattern), c) == Kinds(Picked(s.queue, s.sentKeys, pattern, c))
    decreases |pattern|
  {
    if pattern == [] {
      assert Resolves(pattern) == [];
    } else {
      hide *;
      FirstAndRest(pattern);
      OneResolve(s, pattern[0], pattern[1..], c);
      PickedFirst(s, pattern[0], pattern[1..], c);
      ResolvesSendPicked(OnResolve(s, pattern[0]), pattern[1..], c);
    }
  }

  lemma FirstAndRest(pattern: seq<bool>)
    requires pattern != []
    ensures pattern == [pattern[0]] + pattern[1..]
  {
  }

  // ---- when every pattern alternates ----

  /** The job could still reach the channel. */
  predicate Open(sent: set<JobKey>, c: Child, job: Job) {
    job.child == c && job.key !in sent
  }

  function Prefix(last: Option<Reported>): seq<Reported> {
    if last.Some? then [last.value] else []
  }

  /** The last message about the child, if any, and its open jobs all differ in kind, jobs
      with one key counting as one: such jobs send at most one message between them. */
  ghost predicate Distinct(queue: seq<Job>, sent: set<JobKey>, c: Child, last: Option<Reported>) {
    && (forall a, b :: a in queue && b in queue && Open(sent, c, a) && Open(sent, c, b) && a.kind == b.kind ==>
          a.key == b.key)
    && (forall a :: a in queue && Open(sent, c, a) ==> Some(a.kind) != last)
  }

  ghost predicate Safe(s: Relay, c: Child, last: Option<Reported>) {
    Distinct(s.queue, s.sentKeys, c, last)
  }

  /** Open jobs of the queue, with different keys. */
  ghost predicate OpenJobs(p: seq<Job>, queue: seq<Job>, sent: set<JobKey>, c: Child) {
    && (forall k :: 0 <= k < |p| ==> p[k] in queue && Open(sent, c, p[k]))
    && (forall i, k :: 0 <= i < k < |p| ==> p[i].key != p[k].key)
  }

  lemma OneMoreOpen(p: seq<Job>, queue: seq<Job>, sent: set<JobKey>, c: Child)
    requires queue != []
    requires OpenJobs(p, queue[1..], sent, c) || OpenJobs(p, queue[1..], sent + {queue[0].key}, c)
    ensures OpenJobs(p, queue, sent, c)
    ensures OpenJobs(p, queue[1..], sent + {queue[0].key}, c) && Open(sent, c, queue[0]) ==>
            OpenJobs([queue[0]] + p, queue, sent, c)
  {
    assert forall job :: job in queue[1..] ==> job in queue;
    assert queue[0] in queue;
  }

  lemma {:induction false} PickedAreOpen(queue: seq<Job>, sent: set<JobKey>, pattern: seq<bool>, c: Child)
    ensures OpenJobs(Picked(queue, sent, pattern, c), queue, sent, c)
    decreases |queue|
  {
    if queue != [] && pattern != [] {
      hide OpenJobs;
      if pattern[0] && queue[0].key !in sent {
        PickedAreOpen(queue[1..], sent + {queue[0].key}, pattern[1..], c);
        var rest := Picked(queue[1..], sent + {queue[0].key}, pattern[1..], c);
        OneMoreOpen(rest, queue, sent, c);
        assert [] + rest == rest;
      } else {
        PickedAreOpen(queue[1..], sent, pattern[1..], c);
        OneMoreOpen(Picked(queue[1..], sent, pattern[1..], c), queue, sent, c);
      }
    }
  }

  lemma DistinctAlternates(queue: seq<Job>, sent: set<JobKey>, pattern: seq<bool>, c: Child, last: Option<Reported>)
    requires Distinct(queue, sent, c, last)
    ensures Alternates(Prefix(last) + Kinds(Picked(queue, sent, pattern, c)))
  {
    PickedAreOpen(queue, sent, pattern, c);
    hide Picked;
    var p := Picked(queue, sent, pattern, c);
    var all := Prefix(last) + Kinds(p);
    forall k | 0 < k < |all| ensures all[k] != all[k - 1] {
      var i := k - |Prefix(last)|;
      assert all[k] == p[i].kind;
      if 0 < i {
        assert all[k - 1] == p[i - 1].kind && p[i - 1].key != p[i].key;
      }
    }
  }

  /** The pattern that posts exactly the jobs of a set. */
  function Chosen(queue: seq<Job>, jobs: set<Job>): (pattern: seq<bool>)
    ensures |pattern| == |queue| && forall k :: 0 <= k < |queue| ==> pattern[k] == (queue[k] in jobs)
  {
    seq(|queue|, k requires 0 <= k < |queue| => queue[k] in jobs)
  }

  lemma ChosenRest(queue: seq<Job>, jobs: set<Job>)
    requires queue != []
    ensures Chosen(queue, jobs)[1..] == Chosen(queue[1..], jobs)
  {
  }

  lemma {:induction false} PickNone(queue: seq<Job>, sent: set<JobKey>, c: Child, jobs: set<Job>)
    requires forall x :: x in jobs ==> x.key in sent
    ensures Picked(queue, sent, Chosen(queue, jobs), c) == []
    decreases |queue|
  {
    if queue != [] {
      ChosenRest(queue, jobs);
      PickNone(queue[1..], sent, c, jobs);
    }
  }

  lemma {:induction false} PickOne(queue: seq<Job>, sent: set<JobKey>, c: Child, jobs: set<Job>, a: Job)
    requires a in queue && a in jobs && Open(sent, c, a)
    requires forall x :: x in jobs ==> x == a || x.key in sent
    ensures Picked(queue, sent, Chosen(queue, jobs), c) == [a]
    decreases |queue|
  {
    ChosenRest(queue, jobs);
    if queue[0] == a {
      PickNone(queue[1..], sent + {a.key}, c, jobs);
    } else {
      assert a in queue[1..];
      PickOne(queue[1..], sent, c, jobs, a);
    }
  }

  lemma {:induction false} PickTwo(queue: seq<Job>, sent: set<JobKey>, c: Child, a: Job, b: Job)
    requires a in queue && b in queue && Open(sent, c, a) && Open(sent, c, b) && a.key != b.key
    ensures var p := Picked(queue, sent, Chosen(queue, {a, b}), c); p == [a, b] || p == [b, a]
    decreases |queue|
  {
    ChosenRest(queue, {a, b});
    if queue[0] == a {
      assert b in queue[1..];
      PickOne(queue[1..], sent + {a.key}, c, {a, b}, b);
    } else if queue[0] == b {
      assert a in queue[1..];
      PickOne(queue[1..], sent + {b.key}, c, {a, b}, a);
    } else {
      assert a in queue[1..] && b in queue[1..];
      PickTwo(queue[1..], sent, c, a, b);
    }
  }

  /** Two open jobs of one kind, or one of the kind of the last message: exactly those
      posts succeeding repeats it. */
  lemma RepeatingPattern(queue: seq<Job>, sent: set<JobKey>, c: Child, last: Option<Reported>)
    returns (pattern: seq<bool>)
    requires !Distinct(queue, sent, c, last)
    ensures !Alternates(Prefix(last) + Kinds(Picked(queue, sent, pattern, c)))
  {
    hide Picked;
    if a :| a in queue && Open(sent, c, a) && Some(a.kind) == last {
      pattern := Chosen(queue, {a});
      PickOne(queue, sent, c, {a}, a);
      var all := Prefix(last) + Kinds([a]);
      assert all[1] == all[0];
    } else {
      var a, b :| a in queue && b in queue && Open(sent, c, a) && Open(sent, c, b) &&
                  a.kind == b.kind && a.key != b.key;
      pattern := Chosen(queue, {a, b});
      PickTwo(queue, sent, c, a, b);
      var p := Picked(queue, sent, pattern, c);
      var n := |Prefix(last)|;
      var all := Prefix(last) + Kinds(p);
      assert all[n + 1] == all[n];
    }
  }

  /** After the last message, every pattern of posted and failed sends of the unresolved
      jobs alternates if and only if that message and the open jobs differ in kind. */
  lemma ResolvesAlternateExactly(s: Relay, c: Child, last: Option<Reported>)
    ensures (forall pattern :: Alternates(Prefix(last) + Messages(s, Resolves(pattern), c))) <==> Safe(s, c, last)
  {
    forall pattern
      ensures Messages(s, Resolves(pattern), c) == Kinds(Picked(s.queue, s.sentKeys, pattern, c))
    {
      ResolvesSendPicked(s, pattern, c);
    }
    hide Messages;
    if Safe(s, c, last) {
      forall pattern ensures Alternates(Prefix(last) + Messages(s, Resolves(pattern), c)) {
        DistinctAlternates(s.queue, s.sentKeys, pattern, c, last);
      }
    } else {
      var pattern := RepeatingPattern(s.queue, s.sentKeys, c, last);
      assert !Alternates(Prefix(last) + Messages(s, Resolves(pattern), c));
    }
  }

  // ---- over runs ----

  function LastKind(kinds: seq<Reported>): Option<Reported> {
    if kinds == [] then None else Some(kinds[|kinds| - 1])
  }

  /** The last message once the step is over. */
  function NextLast(last: Option<Reported>, s: Relay, a: Act, c: Child): Option<Reported> {
    var job := Posts(s, a);
    if job.Some? && job.value.child == c then Some(job.value.kind) else last
  }

  /** The job is open after the step and was not before. */
  ghost predicate NewlyOpen(s: Relay, t: Relay, c: Child, job: Job) {
    job in t.queue && Open(t.sentKeys, c, job) && !(job in s.queue && Open(s.sentKeys, c, job))
  }

  /** The job is of the kind of the last message, or of another open job. */
  ghost predicate Clashes(t: Relay, c: Child, last: Option<Reported>, job: Job) {
    Some(job.kind) == last ||
    exists b :: b in t.queue && Open(t.sentKeys, c, b) && b.kind == job.kind && b.key != job.key
  }

  /** The step opens a job about the child that clashes. */
  ghost predicate Risks(s: Relay, a: Act, c: Child, last: Option<Reported>) {
    exists job :: NewlyOpen(s, Step(s, a), c, job) && Clashes(Step(s, a), c, last, job)
  }

  lemma EmitGrows(s: Relay, c: Child, t: Transition, room: set<Child>)
    ensures var u := Emit(s, c, t, room);
      u.sentKeys == s.sentKeys && |s.queue| <= |u.queue| && u.queue[..|s.queue|] == s.queue
  {
  }

  lemma {:induction false} EmitAllGrows(s: Relay, held: seq<Held>, room: set<Child>)
    ensures var u := EmitAll(s, held, room);
      u.sentKeys == s.sentKeys && |s.queue| <= |u.queue| && u.queue[..|s.queue|] == s.queue
  {
    hide Emit;
    if held != [] {
      var n := |held| - 1;
      EmitAllGrows(s, held[..n], room);
      var t := EmitAll(s, held[..n], room);
      EmitGrows(t, held[n].child, held[n].transition, room);
      assert EmitAll(s, held, room).queue[..|t.queue|][..|s.queue|] == EmitAll(s, held, room).queue[..|s.queue|];
    }
  }

  lemma ReportGrows(s: Relay, c: Child, r: Report, retained: bool, room: set<Child>)
    ensures var u := OnReport(s, c, r, retained, room);
      u.sentKeys == s.sentKeys && |s.queue| <= |u.queue| && u.queue[..|s.queue|] == s.queue
  {
    var s2 := Seed(Noted(s, c, r), c, r, retained);
    EmitGrows(s2, c, Transition(OldState(s, c), NewState(r), r.hasRssi, r.timestamp), room);
    hide Emit;
  }

  /** Only resolves take jobs off the queue or add keys. */
  lemma OthersOnlyAdd(s: Relay, a: Act)
    requires !a.Resolve?
    ensures var u := Step(s, a);
      && u.sentKeys <= s.sentKeys && (a.Expire? || u.sentKeys == s.sentKeys)
      && |s.queue| <= |u.queue| && u.queue[..|s.queue|] == s.queue && (a.Expire? ==> u.queue == s.queue)
  {
    match a
    case BeaconState(c, Given(r), retained, room) => ReportGrows(s, c, r, retained, room); hide OnReport;
    case BusState(state, _, room) =>
      var s1 := s.(bus := state);
      EmitAllGrows(s1.(book := s1.book.(held := [])), s.book.held, room);
      hide EmitAll;
    case _ =>
  }

  lemma ResolveOpensNothing(s: Relay, posted: bool, c: Child, job: Job)
    ensures !NewlyOpen(s, OnResolve(s, posted), c, job)
  {
    if s.queue != [] {
      QueueAfter(s, posted);
      hide OnResolve;
      assert forall x :: x in s.queue[1..] ==> x in s.queue;
    }
  }

  /** What opens a job: queueing it, or forgetting the key it shares with one already sent. */
  lemma NewlyOpenBy(s: Relay, a: Act, c: Child, job: Job)
    requires NewlyOpen(s, Step(s, a), c, job)
    ensures !a.Resolve?
    ensures if a.Expire? then job in s.queue && job.key in a.keys && job.key in s.sentKeys else job !in s.queue
  {
    if a.Resolve? { ResolveOpensNothing(s, a.posted, c, job); }
    if !a.Resolve? { OthersOnlyAdd(s, a); }
    assert a.Expire? ==> Step(s, a).sentKeys == s.sentKeys - a.keys;
    hide Step;
  }

  lemma ResolveStaysSafe(s: Relay, posted: bool, c: Child, last: Option<Reported>)
    requires Safe(s, c, last)
    ensures Safe(OnResolve(s, posted), c, NextLast(last, s, Resolve(posted), c))
  {
    if s.queue != [] {
      QueueAfter(s, posted);
      var t := OnResolve(s, posted);
      assert s.queue[0] in s.queue && forall x :: x in t.queue ==> x in s.queue;
      hide OnResolve;
    }
  }

  lemma OthersSafeExactly(s: Relay, t: Relay, c: Child, last: Option<Reported>)
    requires Safe(s, c, last)
    requires t.sentKeys <= s.sentKeys && |s.queue| <= |t.queue| && t.queue[..|s.queue|] == s.queue
    ensures Safe(t, c, last) <==> !exists job :: NewlyOpen(s, t, c, job) && Clashes(t, c, last, job)
  {
    assert t.queue == s.queue + t.queue[|s.queue|..];
    assert forall x :: x in s.queue && Open(s.sentKeys, c, x) ==> x in t.queue && Open(t.sentKeys, c, x);
    if !Safe(t, c, last) {
      if a :| a in t.queue && Open(t.sentKeys, c, a) && Some(a.kind) == last {
        assert NewlyOpen(s, t, c, a) && Clashes(t, c, last, a);
      } else {
        var a, b :| a in t.queue && b in t.queue && Open(t.sentKeys, c, a) && Open(t.sentKeys, c, b) &&
                    a.kind == b.kind && a.key != b.key;
        assert Clashes(t, c, last, a) && Clashes(t, c, last, b);
        assert NewlyOpen(s, t, c, a) || NewlyOpen(s, t, c, b);
      }
    }
  }

  /** A step keeps every continuation free of repeats exactly unless it opens a job that
      clashes with the last message or with another open job. */
  lemma StepSafeExactly(s: Relay, a: Act, c: Child, last: Option<Reported>)
    requires Safe(s, c, last)
    ensures Safe(Step(s, a), c, NextLast(last, s, a, c)) <==> !Risks(s, a, c, last)
  {
    if a.Resolve? {
      ResolveStaysSafe(s, a.posted, c, last);
      forall job ensures !NewlyOpen(s, Step(s, a), c, job) { ResolveOpensNothing(s, a.posted, c, job); }
    } else {
      OthersOnlyAdd(s, a);
      hide Step;
      OthersSafeExactly(s, Step(s, a), c, last);
    }
  }

  /** For a transition: exactly when its message is attempted, accepted, and of the kind of
      the last message or of an open job under another key. */
  lemma EmitSafeExactly(s: Relay, c: Child, t: Transition, room: set<Child>, last: Option<Reported>)
    requires Safe(s, c, last)
    ensures var key := JobKey(c, t.before, t.after, t.timestamp);
      !Safe(Emit(s, c, t, room), c, last) <==>
      (&& Attempts(s, c, t) && !Refused(s, c, t, room)
       && (Kind(s, c, t) == last ||
           exists b :: b in s.queue && Open(s.sentKeys, c, b) && Kind(s, c, t) == Some(b.kind) && b.key != key))
  {
    var key := JobKey(c, t.before, t.after, t.timestamp);
    var u := Emit(s, c, t, room);
    if Attempts(s, c, t) && !Refused(s, c, t, room) {
      var job := Job(c, Kind(s, c, t).value, key);
      assert u.queue == s.queue + [job] && u.sentKeys == s.sentKeys;
      hide Kind;
      hide Emit;
      hide Attempts;
    }
  }

  function LastMessage(s: Relay, acts: seq<Act>, c: Child): Option<Reported> { LastKind(Messages(s, acts, c)) }

  ghost predicate NoRisk(s: Relay, acts: seq<Act>, c: Child) {
    forall k :: 0 <= k < |acts| ==> !Risks(Run(s, acts[..k]), acts[k], c, LastMessage(s, acts[..k], c))
  }

  /** Resolving at any point of the run gives alternating messages, whatever succeeds. */
  ghost predicate NeverRepeats(s: Relay, acts: seq<Act>, c: Child) {
    forall k, pattern :: 0 <= k <= |acts| ==> AlternatesThen(s, acts[..k], pattern, c)
  }

  ghost predicate AlternatesThen(s: Relay, acts: seq<Act>, pattern: seq<bool>, c: Child) {
    Alternates(Messages(s, acts + Resolves(pattern), c))
  }

  lemma JoinAlternates(x: seq<Reported>, y: seq<Reported>)
    requires Alternates(x)
    ensures Alternates(x + y) <==> Alternates(Prefix(LastKind(x)) + y)
  {
    var p := Prefix(LastKind(x)) + y;
    var all := x + y;
    var d := |x| - |Prefix(LastKind(x))|;
    assert forall k :: 0 <= k < |p| ==> p[k] == all[d + k];
    if Alternates(all) {
      forall k | 0 < k < |p| ensures p[k] != p[k - 1] { assert all[d + k] != all[d + k - 1]; }
    }
    if Alternates(p) {
      forall k | 0 < k < |all| ensures all[k] != all[k - 1] {
        if k < |x| { assert x[k] != x[k - 1]; } else { assert p[k - d] != p[k - d - 1]; }
      }
    }
  }

  lemma ThenExactly(s: Relay, acts: seq<Act>, c: Child)
    requires Alternates(Messages(s, acts, c))
    ensures (forall pattern :: AlternatesThen(s, acts, pattern, c)) <==> Safe(Run(s, acts), c, LastMessage(s, acts, c))
  {
    var x := Messages(s, acts, c);
    var t := Run(s, acts);
    ResolvesAlternateExactly(t, c, LastKind(x));
    forall pattern
      ensures AlternatesThen(s, acts, pattern, c) <==>
              Alternates(Prefix(LastKind(x)) + Messages(t, Resolves(pattern), c))
    {
      MessagesAppend(s, acts, Resolves(pattern), c);
      JoinAlternates(x, Messages(t, Resolves(pattern), c));
    }
    hide AlternatesThen;
    hide Messages;
    hide Run;
    hide Safe;
  }

  lemma OneMoreStep(s: Relay, acts: seq<Act>, c: Child, n: nat)
    requires |acts| == n + 1
    ensures Run(s, acts) == Step(Run(s, acts[..n]), acts[n])
    ensures LastMessage(s, acts, c) == NextLast(LastMessage(s, acts[..n], c), Run(s, acts[..n]), acts[n], c)
  {
    assert acts[..n] + [acts[n]] == acts;
    OneMoreAct(s, acts[..n], acts[n], c);
    hide Step;
    hide Posts;
    hide Run;
    hide Messages;
  }

  lemma OneMoreRisk(s: Relay, acts: seq<Act>, c: Child, n: nat)
    requires |acts| == n + 1
    ensures NoRisk(s, acts, c) <==>
            NoRisk(s, acts[..n], c) && !Risks(Run(s, acts[..n]), acts[n], c, LastMessage(s, acts[..n], c))
  {
    hide Run;
    hide LastMessage;
    hide Risks;
    assert forall k :: 0 <= k < n ==> acts[..n][..k] == acts[..k];
  }

  lemma OneMorePoint(s: Relay, acts: seq<Act>, c: Child, n: nat)
    requires |acts| == n + 1
    ensures NeverRepeats(s, acts, c) <==>
            NeverRepeats(s, acts[..n], c) && forall pattern :: AlternatesThen(s, acts, pattern, c)
  {
    hide AlternatesThen;
    assert acts[..n + 1] == acts;
    assert forall k :: 0 <= k <= n ==> acts[..n][..k] == acts[..k];
    if NeverRepeats(s, acts, c) {
      forall k, pattern | 0 <= k <= n ensures AlternatesThen(s, acts[..n][..k], pattern, c) {
        assert AlternatesThen(s, acts[..k], pattern, c);
      }
      forall pattern ensures AlternatesThen(s, acts, pattern, c) {
        assert AlternatesThen(s, acts[..n + 1], pattern, c);
      }
    }
    if NeverRepeats(s, acts[..n], c) && (forall pattern :: AlternatesThen(s, acts, pattern, c)) {
      forall k, pattern | 0 <= k <= |acts| ensures AlternatesThen(s, acts[..k], pattern, c) {
        if k <= n { assert AlternatesThen(s, acts[..n][..k], pattern, c); }
      }
    }
  }

  /** One more act's message after alternating ones. */
  lemma StillAlternates(s: Relay, acts: seq<Act>, c: Child, n: nat)
    requires |acts| == n + 1 && Alternates(Messages(s, acts[..n], c))
    requires forall pattern :: AlternatesThen(s, acts[..n], pattern, c)
    ensures Alternates(Messages(s, acts, c))
  {
    var a := acts[n];
    assert acts[..n] + [a] == acts;
    OneMoreAct(s, acts[..n], a, c);
    if a.Resolve? {
      assert AlternatesThen(s, acts[..n], [a.posted], c);
      assert Resolves([a.posted]) == [a];
    }
    hide Run;
    hide Messages;
    hide Alternates;
  }

  /** Over every run, from a point without open jobs that clash: however far it has gone,
      no outcome of the unresolved sends can repeat a message, if and only if no step of the
      run opened a clashing job: queued a message of the kind of the last one or of one still
      open, or forgot a key and so reopened one. */
  lemma {:induction false} NeverRepeatsExactly(s: Relay, acts: seq<Act>, c: Child)
    requires Safe(s, c, None)
    ensures NeverRepeats(s, acts, c) <==> NoRisk(s, acts, c)
    ensures NoRisk(s, acts, c) ==>
      Alternates(Messages(s, acts, c)) && Safe(Run(s, acts), c, LastMessage(s, acts, c))
  {
    if acts == [] {
      NothingYet(s, c);
    } else {
      hide *;
      var n := |acts| - 1;
      NeverRepeatsExactly(s, acts[..n], c);
      OneMoreStep(s, acts, c, n);
      OneMoreRisk(s, acts, c, n);
      OneMorePoint(s, acts, c, n);
      if NoRisk(s, acts[..n], c) {
        StepSafeExactly(Run(s, acts[..n]), acts[n], c, LastMessage(s, acts[..n], c));
        ThenExactly(s, acts[..n], c);
        StillAlternates(s, acts, c, n);
        ThenExactly(s, acts, c);
      }
    }
  }

  lemma NothingYet(s: Relay, c: Child)
    requires Safe(s, c, None)
    ensures NeverRepeats(s, [], c) && NoRisk(s, [], c)
    ensures Alternates(Messages(s, [], c)) && Safe(Run(s, []), c, LastMessage(s, [], c))
  {
    ThenExactly(s, [], c);
    hide AlternatesThen;
    forall k, pattern | 0 <= k <= 0 ensures AlternatesThen(s, [][..k], pattern, c) {
      var none: seq<Act> := [];
      assert none[..k] == none;
    }
  }

  /** A repeat without any message queued behind one of its own kind: entered, exited,
      entered are all unresolved, and the middle one fails. */
  lemma MiddleFailureRepeats(c: Child) returns (acts: seq<Act>)
    ensures Messages(FRESH, acts, c) == [Near, Near]
    ensures Unforced(acts)
  {
    hide Run;
    hide Messages;
    hide Step;
    hide Posts;
    hide Scene;
    hide Unforced;
    var j1 := Job(c, Near, JobKey(c, Unset, Near, "1"));
    var j2 := Job(c, Absent, JobKey(c, Near, Absent, "2"));
    var j3 := Job(c, Near, JobKey(c, Absent, Near, "3"));
    acts := [BusState(Some("active"), false, {}), Told(c, Near, "1")];
    EntersFirst(c, acts);
    Tell(c, Near, None, Some(Near), {}, [j1], Absent, "2");
    acts := Next(c, acts, Told(c, Absent, "2"));
    Tell(c, Absent, None, Some(Absent), {}, [j1] + [j2], Near, "3");
    acts := Next(c, acts, Told(c, Near, "3"));
    assert [j1] + [j2] + [j3] == [j1] + ([j2] + [j3]);
    Posted(c, Near, None, Some(Near), {}, j1, [j2] + [j3]);
    acts := Next(c, acts, Resolve(true));
    GivenUp(c, Near, Some(Near), {} + {j1.key}, j2, [j3]);
    acts := Next(c, acts, Resolve(false));
    assert [j3] + [] == [j3];
    Posted(c, Near, Some(Near), None, {} + {j1.key}, j3, []);
    acts := Next(c, acts, Resolve(true));
  }

  lemma GivenUp(c: Child, state: Reported, n: Option<Reported>, sent: set<JobKey>, job: Job, rest: seq<Job>)
    requires job.child == c && job.key !in sent
    ensures var s := Scene(c, state, n, None, sent, [job] + rest);
      Step(s, Resolve(false)) == Scene(c, state, n, None, sent, rest) && Posts(s, Resolve(false)) == None
  {
    assert ([job] + rest)[1..] == rest;
  }
}
