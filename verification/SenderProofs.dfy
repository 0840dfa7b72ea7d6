/** What one send job can cost and how it ends, for every sequence of responses. */
module SenderProofs {
  import opened Basics
  import opened Sender

  /** An accepted message is noted once, under its key; otherwise nothing is noted. */
  ghost predicate Noted(before: Line, after: Line, job: Job, delivered: bool) {
    if delivered then
      && after.accepted == before.accepted + [job.channel]
      && after.sentKeys == before.sentKeys + (if job.key.Some? && job.key.value != "" then {job.key.value} else {})
    else after.accepted == before.accepted && after.sentKeys == before.sentKeys
  }

  /** No post from number `from` up to `to` was accepted. */
  ghost predicate NoneAccepted(server: Server, from: nat, to: int) {
    forall k :: from <= k < to ==> !Accepts(server(k))
  }

  /** A call that may not fall back: at most three posts with a pause between each two,
      and it delivers exactly when its last post is accepted. */
  lemma {:induction false} OnceBounds(server: Server, st: Settings, line: Line, job: Job, tries: nat)
    requires tries <= 2
    ensures var a := SendOnce(server, st, line, job, true, tries);
      && line.posts + 1 <= a.line.posts <= line.posts + 3 - tries
      && line.slept <= a.line.slept <= line.slept + 30.0 * (2 - tries) as real
      && (a.delivered <==> Accepts(server(a.line.posts - 1)))
      && NoneAccepted(server, line.posts, a.line.posts - 1)
      && Noted(line, a.line, job, a.delivered)
    decreases 2 - tries
  {
    var r := server(line.posts);
    if r.Status? && r.code == 429 && tries < 2 {
      OnceBounds(server, st, Slept(Posted(line), RetryDelay(r)), job, tries + 1);
    }
  }

  /** Backoff pauses left before emergency attempts n + 1, ... */
  function Pauses(n: nat): real {
    match n
    case 0 => 21.0
    case 1 => 20.0
    case 2 => 15.0
    case _ => 0.0
  }

  lemma {:induction false} RetryBounds(server: Server, st: Settings, line: Line, job: Job, n: nat)
    requires n <= 4
    ensures var a := Retry(server, st, line, job, n);
      && line.posts + (if a.delivered then 1 else 4 - n) <= a.line.posts <= line.posts + 3 * (4 - n)
      && line.slept <= a.line.slept <= line.slept + 60.0 * (4 - n) as real + Pauses(n)
      && (a.delivered ==> Accepts(server(a.line.posts - 1)))
      && NoneAccepted(server, line.posts, if a.delivered then a.line.posts - 1 else a.line.posts)
      && Noted(line, a.line, job, a.delivered)
    decreases 4 - n
  {
    hide SendOnce;
    if n < 4 {
      OnceBounds(server, st, line, job, 0);
      var a := SendOnce(server, st, line, job, true, 0);
      if !a.delivered {
        RetryBounds(server, st, if n + 1 < 4 then Slept(a.line, BACKOFFS[n]) else a.line, job, n + 1);
      }
    }
  }

  /** An ordinary job: three posts, and three more to tell the global channel of a failure. */
  lemma {:induction false} OrdinaryBounds(server: Server, st: Settings, line: Line, job: Job, tries: nat)
    requires tries <= 2
    ensures var a := SendOnce(server, st, line, job, false, tries);
      var own := 3 - tries;
      && line.posts + 1 <= a.line.posts <= line.posts + own + (if FallsBack(st, job) && !a.delivered then 3 else 0)
      && line.slept <= a.line.slept <= line.slept + 30.0 * (own - 1) as real + 60.0
      && (a.delivered ==> Noted(line, a.line, job, true))
      && (!a.delivered ==> Noted(line, a.line, job, false) ||
                           (FallsBack(st, job) && Noted(line, a.line, FallbackJob(st, job), true)))
    decreases 2 - tries
  {
    var r := server(line.posts);
    if r.Status? && r.code == 429 && tries < 2 {
      OrdinaryBounds(server, st, Slept(Posted(line), RetryDelay(r)), job, tries + 1);
    } else if FallsBack(st, job) {
      OnceBounds(server, st, Posted(line), FallbackJob(st, job), 0);
    }
  }

  /** An emergency job makes at most 12 posts, sleeps at most 261 seconds, and gets at most
      one of its posts accepted; it ends in the success callback exactly when one was, or
      when its key had been sent before. Failure means that every one of at least four
      posts was refused, unless the job was not fit to be sent at all. */
  lemma EmergencyJob(server: Server, st: Settings, line: Line, job: Job, validChannel: string -> bool)
    requires job.emergency
    ensures var f := Process(server, st, line, job, validChannel);
      var j := Addressed(st, job);
      && line.posts <= f.line.posts <= line.posts + 12
      && line.slept <= f.line.slept <= line.slept + 261.0
      && (Noted(line, f.line, j, true) || Noted(line, f.line, j, false))
      && (f.success <==> Noted(line, f.line, j, true) || (j.channel != "" && AlreadySent(line, j)))
      && (!f.success && j.channel != "" && st.token && validChannel(j.channel) ==>
            line.posts + 4 <= f.line.posts && NoneAccepted(server, line.posts, f.line.posts))
  {
    RetryBounds(server, st, line, Addressed(st, job), 0);
    hide Retry;
  }

  lemma NotedOnce(before: Line, after: Line, job: Job, other: Job)
    ensures Noted(before, after, job, true) ==> !Noted(before, after, job, false)
    ensures Noted(before, after, job, true) && Noted(before, after, other, true) ==> job.channel == other.channel
  {
    if Noted(before, after, job, true) && Noted(before, after, other, true) {
      assert after.accepted[|before.accepted|] == job.channel;
      assert after.accepted[|before.accepted|] == other.channel;
    }
  }

  /** An ordinary job makes at most 6 posts, its fallback notice included, and again at
      most one of them is accepted: the message, or else the notice. */
  lemma OrdinaryJob(server: Server, st: Settings, line: Line, job: Job, validChannel: string -> bool)
    requires !job.emergency
    ensures var f := Process(server, st, line, job, validChannel);
      var j := Addressed(st, job);
      && line.posts <= f.line.posts <= line.posts + 6
      && line.slept <= f.line.slept <= line.slept + 120.0
      && (f.success <==> Noted(line, f.line, j, true) || (j.channel != "" && AlreadySent(line, j)))
      && (!f.success ==> Noted(line, f.line, j, false) ||
                                      (FallsBack(st, j) && Noted(line, f.line, FallbackJob(st, j), true)))
  {
    var j := Addressed(st, job);
    OrdinaryBounds(server, st, line, j, 0);
    var after := Process(server, st, line, job, validChannel).line;
    NotedOnce(line, after, j, FallbackJob(st, j));
    hide SendOnce;
    hide Noted;
  }

  // ---- callbacks ----

  /** Sending invokes no callback: a fallback notice carries none. */
  lemma {:induction false} SendsCallNothing(
      server: Server, st: Settings, line: Line, job: Job, fallbackAttempted: bool, tries: nat)
    ensures SendOnce(server, st, line, job, fallbackAttempted, tries).line.called == line.called
    decreases if fallbackAttempted then 0 else 1, TriesLeft(tries)
  {
    var r := server(line.posts);
    if r.Status? && r.code == 429 && tries < 2 {
      SendsCallNothing(server, st, Slept(Posted(line), RetryDelay(r)), job, fallbackAttempted, tries + 1);
    } else if !fallbackAttempted {
      SendsCallNothing(server, st, Posted(line), FallbackJob(st, job), true, 0);
    }
  }

  lemma {:induction false} RetriesCallNothing(server: Server, st: Settings, line: Line, job: Job, n: nat)
    requires n <= 4
    ensures Retry(server, st, line, job, n).line.called == line.called
    decreases 4 - n
  {
    hide SendOnce;
    if n < 4 {
      SendsCallNothing(server, st, line, job, true, 0);
      var a := SendOnce(server, st, line, job, true, 0);
      RetriesCallNothing(server, st, if n + 1 < 4 then Slept(a.line, BACKOFFS[n]) else a.line, job, n + 1);
    }
  }

  /** A job given both callbacks invokes exactly one of them, once, whatever the responses
      and whichever way it ends: the success one if the job succeeded, else the other. */
  lemma ExactlyOneCallback(server: Server, st: Settings, line: Line, job: Job, validChannel: string -> bool)
    requires job.onSuccess && job.onFailure
    ensures var f := Process(server, st, line, job, validChannel);
      f.line.called == line.called + [if f.success then OnSuccess else OnFailure]
  {
    var j := Addressed(st, job);
    RetriesCallNothing(server, st, line, j, 0);
    SendsCallNothing(server, st, line, j, false, 0);
    hide Retry;
    hide SendOnce;
  }

  // ---- the bounds are met ----

  /** A server that always asks for a long pause. */
  function Throttling(): Server { n => Status(429, Some(60.0)) }

  lemma {:induction false} OnceThrottled(st: Settings, line: Line, job: Job, tries: nat)
    requires tries <= 2
    ensures SendOnce(Throttling(), st, line, job, true, tries) ==
            Attempt(line.(posts := line.posts + 3 - tries, slept := line.slept + 30.0 * (2 - tries) as real), false)
    decreases 2 - tries
  {
    if tries < 2 {
      OnceThrottled(st, Slept(Posted(line), 30.0), job, tries + 1);
    }
  }

  lemma {:induction false} RetryThrottled(st: Settings, line: Line, job: Job, n: nat)
    requires n <= 4
    ensures Retry(Throttling(), st, line, job, n) ==
            Attempt(line.(posts := line.posts + 3 * (4 - n),
                          slept := line.slept + 60.0 * (4 - n) as real + Pauses(n)), false)
    decreases 4 - n
  {
    hide SendOnce;
    if n < 4 {
      OnceThrottled(st, line, job, 0);
      var a := SendOnce(Throttling(), st, line, job, true, 0);
      RetryThrottled(st, if n + 1 < 4 then Slept(a.line, BACKOFFS[n]) else a.line, job, n + 1);
    }
  }

  /** Under such a server an emergency job makes exactly 12 posts and sleeps exactly 261
      seconds. */
  lemma EmergencyBoundAttained(st: Settings, line: Line, job: Job, validChannel: string -> bool)
    requires job.emergency && job.channel != "" && st.token && validChannel(job.channel) && !AlreadySent(line, job)
    ensures var f := Process(Throttling(), st, line, job, validChannel);
      f.line.posts == line.posts + 12 && f.line.slept == line.slept + 261.0 && !f.success
  {
    RetryThrottled(st, line, job, 0);
    hide Retry;
  }

  /** An ordinary job with another channel to fall back on makes exactly 6 posts. */
  lemma OrdinaryBoundAttained(st: Settings, line: Line, job: Job, validChannel: string -> bool)
    requires !job.emergency && job.channel != "" && st.token && validChannel(job.channel) && !AlreadySent(line, job)
    requires FallsBack(st, job)
    ensures var f := Process(Throttling(), st, line, job, validChannel);
      f.line.posts == line.posts + 6 && f.line.slept == line.slept + 120.0 && !f.success
  {
    OrdinaryThrottled(st, line, job, 0);
    hide SendOnce;
  }

  lemma {:induction false} OrdinaryThrottled(st: Settings, line: Line, job: Job, tries: nat)
    requires tries <= 2 && FallsBack(st, job)
    ensures SendOnce(Throttling(), st, line, job, false, tries) ==
            Attempt(line.(posts := line.posts + 6 - tries, slept := line.slept + 30.0 * (4 - tries) as real), false)
    decreases 2 - tries
  {
    if tries < 2 {
      OrdinaryThrottled(st, Slept(Posted(line), 30.0), job, tries + 1);
    } else {
      OnceThrottled(st, Posted(line), FallbackJob(st, job), 0);
    }
  }
}
