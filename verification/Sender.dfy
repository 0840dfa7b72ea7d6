/** The send worker of discord_relay/relay.py: how often a job posts, how long it sleeps,
    and which callback it ends in, for every sequence of responses. */
module Sender {
  import opened Basics

  /** retryAfter is None when the response body holds no usable number. */
  datatype Response = Exception | Status(code: int, retryAfter: Option<real>)

  /** onSuccess and onFailure tell whether the job carries that callback. */
  datatype Job = Job(channel: string, emergency: bool, key: Option<string>, onSuccess: bool, onFailure: bool)

  datatype Callback = OnSuccess | OnFailure

  /** The relay's settings the sender reads. */
  datatype Settings = Settings(token: bool, defaultChannel: string, globalChannel: string)

  /** Posts made so far, seconds slept, keys marked as sent, channels of accepted posts,
      and the callbacks invoked. */
  datatype Line = Line(posts: nat, slept: real, sentKeys: set<string>, accepted: seq<string>, called: seq<Callback>)

  datatype Attempt = Attempt(line: Line, delivered: bool)

  datatype Finish = Finish(line: Line, success: bool)

  /** The worker's n-th post gets the n-th response. */
  type Server = nat -> Response

  function Accepts(r: Response): bool { r.Status? && r.code != 429 && r.code < 300 }

  function RetryDelay(r: Response): (d: real)
    ensures 1.0 <= d <= 30.0
  {
    var wanted := if r.Status? && r.retryAfter.Some? then r.retryAfter.value else 1.0;
    if wanted < 1.0 then 1.0 else if wanted > 30.0 then 30.0 else wanted
  }

  function Posted(line: Line): Line { line.(posts := line.posts + 1) }

  function Slept(line: Line, seconds: real): Line { line.(slept := line.slept + seconds) }

  function Marked(line: Line, job: Job): Line {
    line.(accepted := line.accepted + [job.channel],
          sentKeys := if job.key.Some? && job.key.value != "" then line.sentKeys + {job.key.value} else line.sentKeys)
  }

  /** The notice sent to the global channel in place of a failed ordinary message. */
  function FallbackJob(st: Settings, job: Job): Job {
    Job(st.globalChannel, false,
        if job.key.Some? && job.key.value != "" then Some("fallback:" + job.key.value) else None, false, false)
  }

  predicate FallsBack(st: Settings, job: Job) {
    !job.emergency && st.globalChannel != "" && job.channel != st.globalChannel
  }

  function TriesLeft(rateLimitAttempt: nat): nat {
    if rateLimitAttempt < 2 then 2 - rateLimitAttempt else 0
  }

  function SendOnce(server: Server, st: Settings, line: Line, job: Job, fallbackAttempted: bool, rateLimitAttempt: nat)
    : Attempt
    decreases if fallbackAttempted then 0 else 1, TriesLeft(rateLimitAttempt), 1
  {
    var r := server(line.posts);
    var line1 := Posted(line);
    if Accepts(r) then Attempt(Marked(line1, job), true)
    else if r.Status? && r.code == 429 && rateLimitAttempt < 2 then
      SendOnce(server, st, Slept(line1, RetryDelay(r)), job, fallbackAttempted, rateLimitAttempt + 1)
    else Attempt(AfterFailure(server, st, line1, job, fallbackAttempted), false)
  }

  /** A failed message, when it may fall back, has its notice sent; how that ends is ignored. */
  function AfterFailure(server: Server, st: Settings, line: Line, job: Job, fallbackAttempted: bool): Line
    decreases if fallbackAttempted then 0 else 1, 0, 0
  {
    if !fallbackAttempted && FallsBack(st, job)
    then SendOnce(server, st, line, FallbackJob(st, job), true, 0).line
    else line
  }

  const BACKOFFS := [1.0, 5.0, 15.0, 60.0]

  /** Attempts n and later of an emergency job; there is no pause after the last. */
  function Retry(server: Server, st: Settings, line: Line, job: Job, n: nat): Attempt
    requires n <= 4
    decreases 4 - n
  {
    if n == 4 then Attempt(line, false)
    else
      var a := SendOnce(server, st, line, job, true, 0);
      if a.delivered then a
      else Retry(server, st, if n + 1 < 4 then Slept(a.line, BACKOFFS[n]) else a.line, job, n + 1)
  }

  function Addressed(st: Settings, job: Job): Job {
    if job.channel != "" then job
    else job.(channel := if st.defaultChannel != "" then st.defaultChannel else st.globalChannel)
  }

  predicate AlreadySent(line: Line, job: Job) {
    job.key.Some? && job.key.value != "" && job.key.value in line.sentKeys
  }

  /** The callbacks a finished job invokes. */
  function Calls(job: Job, success: bool): seq<Callback> {
    if success then if job.onSuccess then [OnSuccess] else []
    else if job.onFailure then [OnFailure] else []
  }

  function Ended(line: Line, job: Job, success: bool): Finish {
    Finish(line.(called := line.called + Calls(job, success)), success)
  }

  function Process(server: Server, st: Settings, line: Line, job: Job, validChannel: string -> bool): Finish {
    var j := Addressed(st, job);
    if j.channel == "" then Ended(line, j, false)
    else if AlreadySent(line, j) then Ended(line, j, true)
    else if !st.token || !validChannel(j.channel) then Ended(line, j, false)
    else
      var a := if j.emergency then Retry(server, st, line, j, 0) else SendOnce(server, st, line, j, false, 0);
      Ended(a.line, j, a.delivered)
  }

  // ---- in place ----

  class DiscordSender {
    const server: Server
    const settings: Settings
    const validChannel: string -> bool
    var posts: nat
    var slept: real
    var sentKeys: set<string>
    var accepted: seq<string>
    var called: seq<Callback>

    ghost function View(): Line
      reads this
    {
      Line(posts, slept, sentKeys, accepted, called)
    }

    constructor (server: Server, settings: Settings, validChannel: string -> bool)
      ensures View() == Line(0, 0.0, {}, [], [])
      ensures this.server == server && this.settings == settings && this.validChannel == validChannel
    {
      this.server, this.settings, this.validChannel := server, settings, validChannel;
      posts, slept, sentKeys, accepted, called := 0, 0.0, {}, [], [];
    }

    method Post() returns (r: Response)
      modifies this`posts
      ensures posts == old(posts) + 1 && r == server(old(posts))
    {
      r := server(posts);
      posts := posts + 1;
    }

    method SendOnceNow(job: Job, fallbackAttempted: bool, rateLimitAttempt: nat) returns (delivered: bool)
      modifies this
      ensures Attempt(View(), delivered) ==
              SendOnce(server, settings, old(View()), job, fallbackAttempted, rateLimitAttempt)
      decreases if fallbackAttempted then 0 else 1, TriesLeft(rateLimitAttempt), 2
    {
      hide RetryDelay;
      hide AfterFailure;
      var r := Post();
      if r.Exception? {
        MaybeFallback(job, fallbackAttempted);
        return false;
      }
      if r.code == 429 {
        if rateLimitAttempt >= 2 {
          MaybeFallback(job, fallbackAttempted);
          return false;
        }
        slept := slept + RetryDelay(r);
        delivered := SendOnceNow(job, fallbackAttempted, rateLimitAttempt + 1);
        return delivered;
      }
      if r.code >= 300 {
        MaybeFallback(job, fallbackAttempted);
        return false;
      }
      accepted := accepted + [job.channel];
      if job.key.Some? && job.key.value != "" { sentKeys := sentKeys + {job.key.value}; }
      return true;
    }

    /** _maybe_fallback, unless this call is itself a fallback or an emergency attempt. */
    method MaybeFallback(job: Job, fallbackAttempted: bool)
      modifies this
      ensures View() == AfterFailure(server, settings, old(View()), job, fallbackAttempted)
      decreases if fallbackAttempted then 0 else 1, 0, 1
    {
      if fallbackAttempted || job.emergency { return; }
      if settings.globalChannel == "" || job.channel == settings.globalChannel { return; }
      hide SendOnce;
      var _ := SendOnceNow(FallbackJob(settings, job), true, 0);
    }

    method SendWithRetry(job: Job) returns (delivered: bool)
      modifies this
      ensures Attempt(View(), delivered) == Retry(server, settings, old(View()), job, 0)
    {
      hide SendOnce;
      var backoffs := BACKOFFS;
      for n := 0 to |backoffs|
        invariant Retry(server, settings, View(), job, n) == Retry(server, settings, old(View()), job, 0)
      {
        delivered := SendOnceNow(job, true, 0);
        if delivered { return true; }
        if n + 1 < |backoffs| { slept := slept + backoffs[n]; }
      }
      return false;
    }

    method NotifySuccess(job: Job)
      modifies this`called
      ensures called == old(called) + if job.onSuccess then [OnSuccess] else []
    {
      if !job.onSuccess { return; }
      called := called + [OnSuccess];
    }

    method NotifyFailure(job: Job)
      modifies this`called
      ensures called == old(called) + if job.onFailure then [OnFailure] else []
    {
      if !job.onFailure { return; }
      called := called + [OnFailure];
    }

    method ProcessJob(job: Job) returns (success: bool)
      modifies this
      ensures Finish(View(), success) == Process(server, settings, old(View()), job, validChannel)
    {
      hide SendOnce;
      hide Retry;
      var j := Addressed(settings, job);
      success := false;
      if j.channel == "" {
        NotifyFailure(j);
        return;
      }
      if j.key.Some? && j.key.value != "" && j.key.value in sentKeys {
        success := true;
        NotifySuccess(j);
        return;
      }
      if !settings.token || !validChannel(j.channel) {
        NotifyFailure(j);
        return;
      }
      if j.emergency { success := SendWithRetry(j); } else { success := SendOnceNow(j, false, 0); }
      if success { NotifySuccess(j); } else { NotifyFailure(j); }
    }
  }
}
