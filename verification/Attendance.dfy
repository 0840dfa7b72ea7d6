/** Attendance messages of discord_relay/relay.py: what beacon states are announced, and
    how the send queue feeds back into what counts as announced. */
module Attendance {
  import opened Basics

  type Child = string

  /** The "state" of a beacon message; Unset is JSON null or no state at all. */
  datatype Reported = Near | Far | Absent | Other(text: string) | Unset

  /** `state` is None when the message has no such field. */
  datatype Report = Report(state: Option<Reported>, hasRssi: bool, timestamp: string)

  /** The "active" field of a roster record: absent or taken for true, the value false, or
      another value taken for false, such as null or 0. */
  datatype Activity = Active | Inactive | Falsy

  datatype Payload = Blank | EmptyObject | NotAnObject | Given(report: Report)

  datatype Transition = Transition(before: Reported, after: Reported, hasRssi: bool, timestamp: string)

  /** The dedupe key of a transition. */
  datatype JobKey = JobKey(child: Child, before: Reported, after: Reported, timestamp: string)

  /** A queued message: `kind` Near is "entered", Absent is one of the "exited" texts. */
  datatype Job = Job(child: Child, kind: Reported, key: JobKey)

  datatype Held = Held(child: Child, transition: Transition)

  /** What is known per child. `held` lists the transitions kept until the bus state is known. */
  datatype Book = Book(
    states: map<Child, Reported>, notified: map<Child, Reported>, pending: map<Child, Reported>,
    held: seq<Held>)

  /** `bus` is the last bus state, None while unknown; `queue` holds the jobs not yet resolved. */
  datatype Relay = Relay(
    roster: map<Child, Activity>, rosterLoaded: bool, bus: Option<string>, book: Book,
    sentKeys: set<JobKey>, queue: seq<Job>)

  const FRESH := Relay(map[], false, None, Book(map[], map[], map[], []), {}, [])

  /** `room` are the children whose job the bounded queue would take at this moment. */
  datatype Act =
    | BeaconState(child: Child, payload: Payload, retained: bool, room: set<Child>)
    | BusState(state: Option<string>, retained: bool, room: set<Child>)
    | Roster(records: map<Child, Activity>)
    | Resolve(posted: bool)
    | Expire(keys: set<JobKey>)

  predicate ChildActive(s: Relay, c: Child) {
    !s.rosterLoaded || (c in s.roster && s.roster[c].Active?)
  }

  predicate Attends(state: string) { state == "active" || state == "exit_grace" }

  // ---- dictionaries that keep insertion order ----

  function Without(held: seq<Held>, c: Child): (h: seq<Held>)
    ensures forall k :: 0 <= k < |h| ==> h[k].child != c && h[k] in held
  {
    if held == [] then []
    else Without(held[..|held| - 1], c) + if held[|held| - 1].child == c then [] else [held[|held| - 1]]
  }

  function Put(held: seq<Held>, c: Child, t: Transition): seq<Held> {
    if held == [] then [Held(c, t)]
    else if held[0].child == c then [Held(c, t)] + held[1..]
    else [held[0]] + Put(held[1..], c, t)
  }

  // ---- pending and delivered marks ----

  function MarkPending(s: Relay, c: Child, kind: Reported): Relay {
    s.(book := s.book.(pending := s.book.pending[c := kind]))
  }

  function MarkDelivered(s: Relay, c: Child, kind: Reported): Relay {
    s.(book := s.book.(pending := s.book.pending - {c}, notified := s.book.notified[c := kind]))
  }

  function ClearPending(s: Relay, c: Child, kind: Reported): Relay {
    if c in s.book.pending && s.book.pending[c] == kind
    then s.(book := s.book.(pending := s.book.pending - {c}))
    else s
  }

  predicate Marked(m: map<Child, Reported>, c: Child, kind: Reported) {
    c in m && m[c] == kind
  }

  predicate Duplicate(s: Relay, c: Child, kind: Reported) {
    Marked(s.book.notified, c, kind) || Marked(s.book.pending, c, kind)
  }

  // ---- emitting ----

  /** Mark, then queue; the mark is taken back when the job is not queued. */
  function Send(s: Relay, c: Child, kind: Reported, t: Transition, room: set<Child>): Relay {
    var key := JobKey(c, t.before, t.after, t.timestamp);
    var s1 := MarkPending(s, c, kind);
    if key in s.sentKeys || c !in room then ClearPending(s1, c, kind)
    else s1.(queue := s.queue + [Job(c, kind, key)])
  }

  /** The kind of message a transition calls for, if any: a "far" that carries an RSSI is
      chatter at the threshold, and only a child that entered can exit. */
  function Kind(s: Relay, c: Child, t: Transition): Option<Reported> {
    if t.after == Near then Some(Near)
    else if (t.after == Absent || (t.after == Far && !t.hasRssi)) && Duplicate(s, c, Near) then Some(Absent)
    else None
  }

  function Emit(s: Relay, c: Child, t: Transition, room: set<Child>): Relay {
    var kind := Kind(s, c, t);
    if !ChildActive(s, c) || kind.None? || Duplicate(s, c, kind.value) then s
    else Send(s, c, kind.value, t, room)
  }

  function EmitAll(s: Relay, held: seq<Held>, room: set<Child>): Relay {
    if held == [] then s
    else
      var last := held[|held| - 1];
      Emit(EmitAll(s, held[..|held| - 1], room), last.child, last.transition, room)
  }

  // ---- handlers ----

  function OldState(s: Relay, c: Child): Reported {
    if c in s.book.states then s.book.states[c] else Unset
  }

  function NewState(r: Report): Reported {
    if r.state.Some? then r.state.value else Unset
  }

  /** The merged beacon state: a message without a state keeps the old one. */
  function Noted(s: Relay, c: Child, r: Report): Relay {
    s.(book := s.book.(states := s.book.states[c := if r.state.Some? then r.state.value else OldState(s, c)]))
  }

  function ForgetAttendance(s: Relay, c: Child): Relay {
    s.(book := s.book.(held := Without(s.book.held, c),
                       notified := s.book.notified - {c}, pending := s.book.pending - {c}))
  }

  /** A retained message says where the child already is. */
  function Seed(s: Relay, c: Child, r: Report, retained: bool): Relay {
    if retained && (NewState(r) == Near || NewState(r) == Absent) then MarkDelivered(s, c, NewState(r)) else s
  }

  function OnBeaconState(s: Relay, c: Child, p: Payload, retained: bool, room: set<Child>): Relay {
    match p
    case Blank => s.(book := s.book.(states := s.book.states - {c}))
    case EmptyObject => s
    case NotAnObject => s
    case Given(r) => OnReport(s, c, r, retained, room)
  }

  function OnReport(s: Relay, c: Child, r: Report, retained: bool, room: set<Child>): Relay {
    var t := Transition(OldState(s, c), NewState(r), r.hasRssi, r.timestamp);
    var s1 := Noted(s, c, r);
    if !ChildActive(s1, c) then ForgetAttendance(s1, c)
    else
      var s2 := Seed(s1, c, r, retained);
      if retained || t.before == t.after then s2
      else if s2.bus.None? then s2.(book := s2.book.(held := Put(s2.book.held, c, t)))
      else if !Attends(s2.bus.value) then s2
      else Emit(s2, c, t, room)
  }

  function Flush(s: Relay, room: set<Child>): Relay {
    if s.book.held == [] || s.bus.None? || !Attends(s.bus.value) then s
    else EmitAll(s.(book := s.book.(held := [])), s.book.held, room)
  }

  function OnBusState(s: Relay, state: Option<string>, retained: bool, room: set<Child>): Relay {
    var s1 := s.(bus := state);
    if !retained && s.bus != state && state.Some? && Attends(state.value) then Flush(s1, room) else s1
  }

  /** Children that left the roster or are inactive in it; a merely falsy record stays. */
  function Pruned(s: Relay, records: map<Child, Activity>): set<Child> {
    (s.roster.Keys - records.Keys) + set c | c in records && records[c].Inactive?
  }

  function WithoutAll(held: seq<Held>, gone: set<Child>): seq<Held> {
    if held == [] then []
    else
      var before := WithoutAll(held[..|held| - 1], gone);
      if held[|held| - 1].child in gone then before else before + [held[|held| - 1]]
  }

  function OnRoster(s: Relay, records: map<Child, Activity>): Relay {
    var gone := Pruned(s, records);
    s.(roster := records, rosterLoaded := true,
       book := Book(s.book.states - gone, s.book.notified - gone, s.book.pending - gone, WithoutAll(s.book.held, gone)))
  }

  /** The sender finishes the oldest job: already sent under its key, posted, or given up. */
  function OnResolve(s: Relay, posted: bool): Relay {
    if s.queue == [] then s
    else
      var job := s.queue[0];
      var s1 := s.(queue := s.queue[1..]);
      if job.key in s.sentKeys then MarkDelivered(s1, job.child, job.kind)
      else if posted then MarkDelivered(s1.(sentKeys := s.sentKeys + {job.key}), job.child, job.kind)
      else ClearPending(s1, job.child, job.kind)
  }

  function Step(s: Relay, a: Act): Relay {
    match a
    case BeaconState(c, p, retained, room) => OnBeaconState(s, c, p, retained, room)
    case BusState(state, retained, room) => OnBusState(s, state, retained, room)
    case Roster(records) => OnRoster(s, records)
    case Resolve(posted) => OnResolve(s, posted)
    case Expire(keys) => s.(sentKeys := s.sentKeys - keys)
  }

  /** The job whose message reaches the channel in this step. */
  function Posts(s: Relay, a: Act): Option<Job> {
    if a.Resolve? && a.posted && s.queue != [] && s.queue[0].key !in s.sentKeys then Some(s.queue[0]) else None
  }

  function Run(s: Relay, acts: seq<Act>): Relay {
    if acts == [] then s else Step(Run(s, acts[..|acts| - 1]), acts[|acts| - 1])
  }

  /** Kinds of the messages about this child that reach the channel, in order. */
  function Messages(s: Relay, acts: seq<Act>, c: Child): seq<Reported> {
    if acts == [] then []
    else
      var before := acts[..|acts| - 1];
      var job := Posts(Run(s, before), acts[|acts| - 1]);
      Messages(s, before, c) + if job.Some? && job.value.child == c then [job.value.kind] else []
  }

  // ---- in place ----

  /** The dictionaries and the queue of BusDiscordRelay and its sender. */
  class RelayState {
    var roster: map<Child, Activity>
    var rosterLoaded: bool
    var bus: Option<string>
    var beaconStates: map<Child, Reported>
    var notified: map<Child, Reported>
    var pending: map<Child, Reported>
    var held: seq<Held>
    var sentKeys: set<JobKey>
    var queue: seq<Job>

    ghost function View(): Relay
      reads this
    {
      Relay(roster, rosterLoaded, bus, Book(beaconStates, notified, pending, held), sentKeys, queue)
    }

    constructor ()
      ensures View() == FRESH
    {
      roster, rosterLoaded, bus := map[], false, None;
      beaconStates, notified, pending, held := map[], map[], map[], [];
      sentKeys, queue := {}, [];
    }

    method SendDiscord(job: Job, accepted: bool) returns (queued: bool)
      modifies this`queue
      ensures queued == (job.key !in sentKeys && accepted)
      ensures queue == if queued then old(queue) + [job] else old(queue)
    {
      if job.key in sentKeys || !accepted { return false; }
      queue := queue + [job];
      return true;
    }

    method EmitBeaconTransition(c: Child, t: Transition, room: set<Child>)
      modifies this`pending, this`queue
      ensures View() == Emit(old(View()), c, t, room)
    {
      if rosterLoaded && !(c in roster && roster[c].Active?) { return; }
      var kind: Reported;
      if t.after == Near {
        kind := Near;
      } else if (t.after == Absent || (t.after == Far && !t.hasRssi)) &&
                (Marked(notified, c, Near) || Marked(pending, c, Near)) {
        kind := Absent;
      } else {
        return;
      }
      if Marked(notified, c, kind) || Marked(pending, c, kind) { return; }
      pending := pending[c := kind];
      var queued := SendDiscord(Job(c, kind, JobKey(c, t.before, t.after, t.timestamp)), c in room);
      if !queued && Marked(pending, c, kind) {
        pending := pending - {c};
      }
    }

    method HandleBeaconState(c: Child, p: Payload, retained: bool, room: set<Child>)
      modifies this
      ensures View() == OnBeaconState(old(View()), c, p, retained, room)
    {
      hide Emit;
      match p
      case Blank => beaconStates := beaconStates - {c};
      case EmptyObject =>
      case NotAnObject =>
      case Given(r) =>
        var oldState := if c in beaconStates then beaconStates[c] else Unset;
        var newState := NewState(r);
        beaconStates := beaconStates[c := if r.state.Some? then r.state.value else oldState];
        if rosterLoaded && !(c in roster && roster[c].Active?) {
          held, notified, pending := Without(held, c), notified - {c}, pending - {c};
          return;
        }
        if retained && (newState == Near || newState == Absent) {
          notified, pending := notified[c := newState], pending - {c};
        }
        if retained || oldState == newState { return; }
        var t := Transition(oldState, newState, r.hasRssi, r.timestamp);
        if bus.None? {
          held := Put(held, c, t);
          return;
        }
        if !Attends(bus.value) { return; }
        EmitBeaconTransition(c, t, room);
    }

    method FlushHeld(room: set<Child>)
      modifies this
      ensures View() == Flush(old(View()), room)
    {
      hide Emit;
      if held == [] { return; }
      if bus.None? || !Attends(bus.value) { return; }
      var items := held;
      held := [];
      ghost var begun := View();
      assert items[..0] == [];
      for n := 0 to |items|
        invariant View() == EmitAll(begun, items[..n], room)
      {
        assert items[..n + 1][..n] == items[..n];
        EmitBeaconTransition(items[n].child, items[n].transition, room);
      }
      assert items[..|items|] == items;
    }

    method HandleBusState(state: Option<string>, retained: bool, room: set<Child>)
      modifies this
      ensures View() == OnBusState(old(View()), state, retained, room)
    {
      var oldState := bus;
      bus := state;
      if retained { return; }
      if oldState != state && state.Some? && Attends(state.value) {
        FlushHeld(room);
      }
    }

    method HandleRoster(records: map<Child, Activity>)
      modifies this
      ensures View() == OnRoster(old(View()), records)
    {
      var gone := (roster.Keys - records.Keys) + set c | c in records && records[c].Inactive?;
      roster, rosterLoaded := records, true;
      beaconStates, notified, pending := beaconStates - gone, notified - gone, pending - gone;
      held := WithoutAll(held, gone);
    }

    /** The sender's end of a job: has_sent_key, the post, and the callbacks. */
    method ResolveOldest(posted: bool) returns (message: Option<Job>)
      modifies this
      ensures View() == OnResolve(old(View()), posted)
      ensures message == Posts(old(View()), Resolve(posted))
    {
      message := None;
      if queue == [] { return; }
      var job := queue[0];
      queue := queue[1..];
      if job.key in sentKeys {
        pending, notified := pending - {job.child}, notified[job.child := job.kind];
      } else if posted {
        message := Some(job);
        sentKeys := sentKeys + {job.key};
        pending, notified := pending - {job.child}, notified[job.child := job.kind];
      } else if Marked(pending, job.child, job.kind) {
        pending := pending - {job.child};
      }
    }
  }
}
