/** How a send job ends, in terms of the status codes the server answers with. */
module SenderCodes {
  import opened Basics
  import opened Sender
  import opened SenderProofs

  /** The post went through. */
  predicate Succeeded(r: Response) { r.Status? && r.code < 300 }

  predicate Throttled(r: Response) { r.Status? && r.code == 429 }

  /** An answer that ends a try at once without success. */
  predicate Refused(r: Response) { r.Exception? || (r.code >= 300 && r.code != 429) }

  lemma AcceptsExactly(r: Response)
    ensures Accepts(r) <==> Succeeded(r)
  {
  }

  /** Post p is the one of the n posts from `from` that succeeds; those before it are
      throttled. */
  ghost predicate DeliversAt(server: Server, from: nat, n: nat, p: nat) {
    from <= p < from + n && Succeeded(server(p)) && forall q :: from <= q < p ==> Throttled(server(q))
  }

  ghost predicate Delivers(server: Server, from: nat, n: nat) {
    exists p :: DeliversAt(server, from, n, p)
  }

  lemma DeliversStep(server: Server, from: nat, n: nat, rest: nat)
    requires n == rest + 1
    ensures Delivers(server, from, n) <==>
            Succeeded(server(from)) || (Throttled(server(from)) && Delivers(server, from + 1, rest))
    ensures !Delivers(server, from, 0)
  {
    if p :| DeliversAt(server, from, n, p) {
      if from < p { assert DeliversAt(server, from + 1, rest, p); }
    }
    if Succeeded(server(from)) { assert DeliversAt(server, from, n, from); }
    if Throttled(server(from)) && Delivers(server, from + 1, rest) {
      var p :| DeliversAt(server, from + 1, rest, p);
      assert DeliversAt(server, from, n, p);
    }
  }

  /** A call delivers exactly when a post of its three tries succeeds, throttled ones before. */
  lemma {:induction false} OnceDelivers(
      server: Server, st: Settings, line: Line, job: Job, fallbackAttempted: bool, tries: nat)
    requires tries <= 2
    ensures SendOnce(server, st, line, job, fallbackAttempted, tries).delivered <==>
            Delivers(server, line.posts, 3 - tries)
    decreases 2 - tries
  {
    var r := server(line.posts);
    DeliversStep(server, line.posts, 3 - tries, 2 - tries);
    if Throttled(r) && tries < 2 {
      OnceDelivers(server, st, Slept(Posted(line), RetryDelay(r)), job, fallbackAttempted, tries + 1);
    } else if tries == 2 {
      DeliversStep(server, line.posts + 1, 1, 0);
    }
    hide Delivers;
  }

  /** Posts one call makes from `from`: throttled ones are tried again, twice at most. */
  function PostsOf(server: Server, from: nat): nat {
    if !Throttled(server(from)) then 1 else if !Throttled(server(from + 1)) then 2 else 3
  }

  /** The seconds a throttling answer asks for, at least 1 and at most 30. */
  function Pause(r: Response): real {
    if r.Exception? || r.retryAfter.None? || r.retryAfter.value < 1.0 then 1.0
    else if r.retryAfter.value > 30.0 then 30.0
    else r.retryAfter.value
  }

  function PausesOf(server: Server, from: nat): real {
    if !Throttled(server(from)) then 0.0
    else if !Throttled(server(from + 1)) then Pause(server(from))
    else Pause(server(from)) + Pause(server(from + 1))
  }

  lemma OnceCosts(server: Server, st: Settings, line: Line, job: Job)
    ensures var a := SendOnce(server, st, line, job, true, 0);
      && a.line.posts == line.posts + PostsOf(server, line.posts)
      && a.line.slept == line.slept + PausesOf(server, line.posts)
  {
    var l1 := Slept(Posted(line), RetryDelay(server(line.posts)));
    var l2 := Slept(Posted(l1), RetryDelay(server(line.posts + 1)));
    assert l1.posts == line.posts + 1 && l2.posts == line.posts + 2;
    var a2 := SendOnce(server, st, l2, job, true, 2);
    assert a2.line.posts == line.posts + 3 && a2.line.slept == l2.slept;
    var a1 := SendOnce(server, st, l1, job, true, 1);
    assert a1 == if Throttled(server(line.posts + 1)) then a2 else a1;
  }

  /** Where the n-th emergency attempt starts. */
  function Start(server: Server, from: nat, n: nat): nat
    decreases n
  {
    if n == 0 then from else Start(server, from + PostsOf(server, from), n - 1)
  }

  function PausesUpTo(server: Server, from: nat, n: nat): real
    decreases n
  {
    if n == 0 then 0.0 else PausesOf(server, from) + PausesUpTo(server, from + PostsOf(server, from), n - 1)
  }

  /** The m-th emergency attempt delivers. */
  ghost predicate AttemptDelivers(server: Server, from: nat, m: nat) {
    Delivers(server, Start(server, from, m), 3)
  }

  ghost predicate SomeAttempt(server: Server, from: nat, n: nat) {
    exists m :: 0 <= m < n && AttemptDelivers(server, from, m)
  }

  lemma SomeAttemptStep(server: Server, from: nat, n: nat)
    ensures SomeAttempt(server, from, n + 1) <==>
            Delivers(server, from, 3) || SomeAttempt(server, from + PostsOf(server, from), n)
    ensures !SomeAttempt(server, from, 0)
  {
    hide Delivers;
    hide PostsOf;
    var next := from + PostsOf(server, from);
    assert AttemptDelivers(server, from, 0) == Delivers(server, from, 3);
    if m :| 0 <= m < n + 1 && AttemptDelivers(server, from, m) {
      if 0 < m { assert AttemptDelivers(server, next, m - 1); }
    }
    if m :| 0 <= m < n && AttemptDelivers(server, next, m) { assert AttemptDelivers(server, from, m + 1); }
  }

  /** The attempts from number n on deliver exactly when one of them does; when none does,
      this is what they cost. */
  lemma {:induction false} RetryDelivers(server: Server, st: Settings, line: Line, job: Job, n: nat)
    requires n <= 4
    ensures var a := Retry(server, st, line, job, n);
      && (a.delivered <==> SomeAttempt(server, line.posts, 4 - n))
      && (!a.delivered ==>
            && a.line.posts == Start(server, line.posts, 4 - n)
            && a.line.slept == line.slept + PausesUpTo(server, line.posts, 4 - n) + Pauses(n))
    decreases 4 - n
  {
    hide SendOnce;
    hide Delivers;
    hide PostsOf;
    hide PausesOf;
    hide SomeAttempt;
    if n == 4 {
      SomeAttemptStep(server, line.posts, 0);
    } else {
      OnceDelivers(server, st, line, job, true, 0);
      OnceCosts(server, st, line, job);
      SomeAttemptStep(server, line.posts, 3 - n);
      var a := SendOnce(server, st, line, job, true, 0);
      if !a.delivered {
        RetryDelivers(server, st, if n + 1 < 4 then Slept(a.line, BACKOFFS[n]) else a.line, job, n + 1);
      }
    }
  }

  /** The job has a channel, a token and a valid address, and is not already sent. */
  predicate Fit(st: Settings, line: Line, job: Job, validChannel: string -> bool) {
    var j := Addressed(st, job);
    j.channel != "" && !AlreadySent(line, j) && st.token && validChannel(j.channel)
  }

  /** A job fit to be sent succeeds exactly when one of its own posts is answered by a status
      below 300: the ordinary one within its three tries, the emergency one within those of
      one of its four attempts. A job already sent succeeds, and no other does. */
  lemma JobSucceedsExactly(server: Server, st: Settings, line: Line, job: Job, validChannel: string -> bool)
    ensures var j := Addressed(st, job);
      Process(server, st, line, job, validChannel).success <==>
      if Fit(st, line, job, validChannel) then
        if job.emergency then SomeAttempt(server, line.posts, 4)
        else Delivers(server, line.posts, 3)
      else j.channel != "" && AlreadySent(line, j)
  {
    var j := Addressed(st, job);
    assert j.emergency == job.emergency;
    OnceDelivers(server, st, line, j, false, 0);
    RetryDelivers(server, st, line, j, 0);
    hide Retry;
    hide SendOnce;
    hide Delivers;
  }

  lemma {:induction false} OnceRefused(
      server: Server, st: Settings, line: Line, job: Job, fallbackAttempted: bool, tries: nat)
    requires forall k :: line.posts <= k ==> !Succeeded(server(k))
    ensures var a := SendOnce(server, st, line, job, fallbackAttempted, tries);
      && !a.delivered && a.line.accepted == line.accepted && a.line.sentKeys == line.sentKeys
      && a.line.called == line.called && line.posts <= a.line.posts
    decreases if fallbackAttempted then 0 else 1, TriesLeft(tries)
  {
    var r := server(line.posts);
    AcceptsExactly(r);
    if Throttled(r) && tries < 2 {
      OnceRefused(server, st, Slept(Posted(line), RetryDelay(r)), job, fallbackAttempted, tries + 1);
    } else if !fallbackAttempted {
      OnceRefused(server, st, Posted(line), FallbackJob(st, job), true, 0);
    }
    hide Succeeded;
    hide Accepts;
  }

  lemma {:induction false} RetryRefused(server: Server, st: Settings, line: Line, job: Job, n: nat)
    requires n <= 4 && forall k :: line.posts <= k ==> !Succeeded(server(k))
    ensures var a := Retry(server, st, line, job, n);
      && !a.delivered && a.line.accepted == line.accepted && a.line.sentKeys == line.sentKeys
      && a.line.called == line.called
    decreases 4 - n
  {
    hide SendOnce;
    hide Succeeded;
    if n < 4 {
      OnceRefused(server, st, line, job, true, 0);
      var a := SendOnce(server, st, line, job, true, 0);
      RetryRefused(server, st, if n + 1 < 4 then Slept(a.line, BACKOFFS[n]) else a.line, job, n + 1);
    }
  }

  /** When no answer is below 300, the job fails: nothing is delivered in its place either,
      no key is marked, and the failure callback is called if there is one. */
  lemma AllRefusedFails(server: Server, st: Settings, line: Line, job: Job, validChannel: string -> bool)
    requires Fit(st, line, job, validChannel)
    requires forall k :: line.posts <= k ==> !Succeeded(server(k))
    ensures var f := Process(server, st, line, job, validChannel);
      && !f.success && f.line.accepted == line.accepted && f.line.sentKeys == line.sentKeys
      && f.line.called == line.called + if job.onFailure then [OnFailure] else []
  {
    var j := Addressed(st, job);
    assert j.onFailure == job.onFailure;
    OnceRefused(server, st, line, j, false, 0);
    RetryRefused(server, st, line, j, 0);
    hide Retry;
    hide SendOnce;
    hide Succeeded;
  }

  /** Against a server that always errs, without throttling, an emergency job makes exactly
      four posts and sleeps 21 seconds. */
  lemma EmergencyAgainstErrors(server: Server, st: Settings, line: Line, job: Job, validChannel: string -> bool)
    requires job.emergency && Fit(st, line, job, validChannel)
    requires forall k :: line.posts <= k ==> Refused(server(k))
    ensures var f := Process(server, st, line, job, validChannel);
      !f.success && f.line.posts == line.posts + 4 && f.line.slept == line.slept + 21.0
  {
    var j := Addressed(st, job);
    AllRefusedFails(server, st, line, job, validChannel);
    RetryDelivers(server, st, line, j, 0);
    var p := line.posts;
    assert Refused(server(p)) && Refused(server(p + 1)) && Refused(server(p + 2)) && Refused(server(p + 3));
    StartOfFour(server, p);
    hide Retry;
    hide Start;
    hide PausesUpTo;
  }

  lemma StartOfFour(server: Server, p: nat)
    requires Refused(server(p)) && Refused(server(p + 1)) && Refused(server(p + 2)) && Refused(server(p + 3))
    ensures Start(server, p, 4) == p + 4 && PausesUpTo(server, p, 4) == 0.0
  {
    assert PostsOf(server, p) == PostsOf(server, p + 1) == PostsOf(server, p + 2) == PostsOf(server, p + 3) == 1;
    assert Start(server, p + 3, 1) == p + 4 && Start(server, p + 2, 2) == p + 4 && Start(server, p + 1, 3) == p + 4;
    assert PausesUpTo(server, p + 3, 1) == 0.0 && PausesUpTo(server, p + 2, 2) == 0.0;
    assert PausesUpTo(server, p + 1, 3) == 0.0;
  }

  // ---- what a job leaves behind ----

  /** A message accepted by this channel, noted under its key if it has one. */
  predicate Accepted(before: Line, after: Line, channel: string, key: Option<string>) {
    && after.accepted == before.accepted + [channel]
    && after.sentKeys == before.sentKeys + if key.Some? && key.value != "" then {key.value} else {}
  }

  predicate NothingAccepted(before: Line, after: Line) {
    after.accepted == before.accepted && after.sentKeys == before.sentKeys
  }

  /** The line when the last of the tries from `line` has been posted. */
  function Tried(server: Server, line: Line): Line {
    line.(posts := line.posts + PostsOf(server, line.posts), slept := line.slept + PausesOf(server, line.posts))
  }

  lemma OrdinaryOnce(server: Server, st: Settings, line: Line, job: Job)
    ensures SendOnce(server, st, line, job, false, 0) ==
            if SendOnce(server, st, line, job, false, 0).delivered then Attempt(Marked(Tried(server, line), job), true)
            else Attempt(AfterFailure(server, st, Tried(server, line), job, false), false)
  {
    var l1 := Slept(Posted(line), RetryDelay(server(line.posts)));
    var l2 := Slept(Posted(l1), RetryDelay(server(line.posts + 1)));
    assert l1.posts == line.posts + 1 && l2.posts == line.posts + 2;
    hide AfterFailure;
    var a2 := SendOnce(server, st, l2, job, false, 2);
    assert Posted(l2).posts == line.posts + 3;
    var a1 := SendOnce(server, st, l1, job, false, 1);
    assert a1 == if Throttled(server(line.posts + 1)) then a2 else a1;
  }

  /** The channel a job goes to. */
  predicate GoesTo(st: Settings, job: Job, channel: string) {
    if job.channel != "" then channel == job.channel
    else if st.defaultChannel != "" then channel == st.defaultChannel
    else channel == st.globalChannel
  }

  /** Another channel is to be told of the failure, and its own tries, which follow those of
      the job, get through. */
  ghost predicate ToldElsewhere(server: Server, st: Settings, line: Line, job: Job, channel: string) {
    && !job.emergency && st.globalChannel != "" && channel != st.globalChannel
    && Delivers(server, line.posts + PostsOf(server, line.posts), 3)
  }

  lemma OrdinaryLeaves(server: Server, st: Settings, line: Line, job: Job)
    requires !job.emergency
    ensures var a := SendOnce(server, st, line, job, false, 0);
      if a.delivered then Accepted(line, a.line, job.channel, job.key)
      else if ToldElsewhere(server, st, line, job, job.channel) then
        Accepted(line, a.line, st.globalChannel, FallbackJob(st, job).key)
      else NothingAccepted(line, a.line)
  {
    hide SendOnce, Delivers, PostsOf, PausesOf, Accepts;
    var next := Tried(server, line);
    OrdinaryOnce(server, st, line, job);
    OnceDelivers(server, st, next, FallbackJob(st, job), true, 0);
    OnceBounds(server, st, next, FallbackJob(st, job), 0);
  }

  /** A fit job that succeeds leaves one accepted message, in its channel and under its key. An
      ordinary one that fails leaves the notice in the global channel exactly when that is
      another channel and the notice gets through. Nothing else is ever accepted. */
  lemma JobEndsExactly(
      server: Server, st: Settings, line: Line, job: Job, validChannel: string -> bool, channel: string)
    requires Fit(st, line, job, validChannel) && GoesTo(st, job, channel)
    ensures var f := Process(server, st, line, job, validChannel);
      if f.success then Accepted(line, f.line, channel, job.key)
      else if ToldElsewhere(server, st, line, job, channel) then
        Accepted(line, f.line, st.globalChannel,
                 if job.key.Some? && job.key.value != "" then Some("fallback:" + job.key.value) else None)
      else NothingAccepted(line, f.line)
  {
    var j := Addressed(st, job);
    assert j == job.(channel := channel);
    hide SendOnce, Delivers, PostsOf, PausesOf, Accepts, Retry, AlreadySent;
    if job.emergency {
      RetryBounds(server, st, line, j, 0);
    } else {
      OrdinaryLeaves(server, st, line, j);
    }
  }

  /** An ordinary fit job costs its own tries and, when it fails and another channel is to
      be told, those of the notice. */
  lemma OrdinaryCostsExactly(
      server: Server, st: Settings, line: Line, job: Job, validChannel: string -> bool, channel: string)
    requires Fit(st, line, job, validChannel) && GoesTo(st, job, channel) && !job.emergency
    ensures var f := Process(server, st, line, job, validChannel);
      var next := line.posts + PostsOf(server, line.posts);
      var told := !f.success && st.globalChannel != "" && channel != st.globalChannel;
      && f.line.posts == next + (if told then PostsOf(server, next) else 0)
      && f.line.slept == line.slept + PausesOf(server, line.posts) + (if told then PausesOf(server, next) else 0.0)
  {
    var j := Addressed(st, job);
    assert j == job.(channel := channel);
    OrdinaryOnce(server, st, line, j);
    OnceCosts(server, st, Tried(server, line), FallbackJob(st, j));
    hide SendOnce, PostsOf, PausesOf;
  }
}
