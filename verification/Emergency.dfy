/** The emergency path of discord_relay/relay.py: which distress messages are passed on. */
module Emergency {
  import opened Basics

  /** Clock readings and the repeat interval share one unit. A distress message as the gate
      sees it: `id` is the incident id, or the payload hash when the message has none. */
  datatype Distress = Distress(id: string, emergency: bool, live: bool, acked: bool)

  /** lastSent is 0 while nothing was delivered; busAck is the flag of the last bus state. */
  datatype Gate = Gate(
    active: Option<string>, lastSent: int, lastEnqueued: map<string, int>, acked: bool, busAck: bool)

  const OPEN := Gate(None, 0, map[], false, false)

  /** `room` is whether the bounded send queue takes a job now. */
  datatype Act =
    | Message(d: Distress, retained: bool, now: int, room: bool)
    | Clear
    | BusState(acknowledged: bool)
    | Delivered(id: string, now: int)
    | Restart

  function Since(m: map<string, int>, id: string): int {
    if id in m then m[id] else 0
  }

  function Max(a: int, b: int): int { if a < b then b else a }

  /** The message is looked at: live, an emergency, in one of the three states. */
  predicate Considered(a: Act) {
    a.Message? && !a.retained && a.d.emergency && (a.d.live || a.d.acked)
  }

  predicate Gated(g: Gate, a: Act)
    requires a.Message?
  {
    g.acked || a.d.acked || g.busAck
  }

  predicate TooSoon(g: Gate, a: Act, interval: int)
    requires a.Message?
  {
    g.active == Some(a.d.id) && a.now - Max(g.lastSent, Since(g.lastEnqueued, a.d.id)) < interval
  }

  /** An emergency job enters the send queue. */
  predicate Enqueues(g: Gate, a: Act, interval: int) {
    Considered(a) && !Gated(g, a) && !TooSoon(g, a, interval) && a.room
  }

  function Adopt(g: Gate, id: string): Gate {
    if g.active == Some(id) then g
    else g.(active := Some(id), lastEnqueued := map[id := Since(g.lastEnqueued, id)])
  }

  /** The state file holds the incident and the time of its last delivery: both are written
      out whenever they change. The rest starts afresh. */
  function Restored(g: Gate): Gate { Gate(g.active, g.lastSent, map[], false, false) }

  function Step(g: Gate, a: Act, interval: int): Gate {
    match a
    case Message(d, retained, now, room) =>
      if !Considered(a) then g
      else if Gated(g, a) then g.(acked := true)
      else
        var g1 := Adopt(g, d.id);
        if Enqueues(g, a, interval) then g1.(lastEnqueued := g1.lastEnqueued[d.id := now]) else g1
    case Clear => Gate(None, 0, map[], false, g.busAck)
    case BusState(acknowledged) => g.(busAck := acknowledged, acked := g.acked || (acknowledged && !g.busAck))
    case Delivered(id, now) => if g.active == Some(id) then g.(lastSent := now) else g
    case Restart => Restored(g)
  }

  function Run(g: Gate, acts: seq<Act>, interval: int): Gate {
    if acts == [] then g else Step(Run(g, acts[..|acts| - 1], interval), acts[|acts| - 1], interval)
  }

  /** Emergency jobs queued during the run. */
  function Enqueued(g: Gate, acts: seq<Act>, interval: int): nat {
    if acts == [] then 0
    else
      Enqueued(g, acts[..|acts| - 1], interval) +
      if Enqueues(Run(g, acts[..|acts| - 1], interval), acts[|acts| - 1], interval) then 1 else 0
  }

  // ---- in place ----

  class DistressGate {
    const repeat: int
    var activeDistressId: Option<string>
    var lastSentAt: int
    var lastEnqueuedAt: map<string, int>
    var distressAcked: bool
    var busAcknowledged: bool

    ghost function View(): Gate
      reads this
    {
      Gate(activeDistressId, lastSentAt, lastEnqueuedAt, distressAcked, busAcknowledged)
    }

    constructor (repeat: int)
      ensures View() == OPEN && this.repeat == repeat
    {
      this.repeat := repeat;
      activeDistressId, lastSentAt, lastEnqueuedAt, distressAcked, busAcknowledged := None, 0, map[], false, false;
    }

    constructor FromSnapshot(repeat: int, active: Option<string>, lastSent: int)
      ensures this.repeat == repeat
      ensures forall g: Gate :: g.active == active && g.lastSent == lastSent ==> View() == Restored(g)
    {
      this.repeat := repeat;
      activeDistressId, lastSentAt, lastEnqueuedAt := active, lastSent, map[];
      distressAcked, busAcknowledged := false, false;
    }

    method HandleClear()
      modifies this
      ensures View() == Step(old(View()), Clear, repeat)
    {
      activeDistressId, lastSentAt, lastEnqueuedAt, distressAcked := None, 0, map[], false;
    }

    method HandleBusState(acknowledged: bool)
      modifies this
      ensures View() == Step(old(View()), BusState(acknowledged), repeat)
    {
      var before := busAcknowledged;
      busAcknowledged := acknowledged;
      if acknowledged && !before {
        distressAcked := true;
      }
    }

    method HandleDistress(d: Distress, retained: bool, now: int, room: bool) returns (queued: bool)
      modifies this
      ensures View() == Step(old(View()), Message(d, retained, now, room), repeat)
      ensures queued == Enqueues(old(View()), Message(d, retained, now, room), repeat)
    {
      queued := false;
      if retained { return; }
      if !d.emergency || !(d.live || d.acked) { return; }
      if distressAcked || d.acked {
        distressAcked := true;
        return;
      }
      if busAcknowledged {
        distressAcked := true;
        return;
      }
      if activeDistressId != Some(d.id) {
        activeDistressId := Some(d.id);
        lastEnqueuedAt := map[d.id := Since(lastEnqueuedAt, d.id)];
      } else {
        var lastAttempt := Max(lastSentAt, Since(lastEnqueuedAt, d.id));
        if now - lastAttempt < repeat { return; }
      }
      queued := room;
      if queued {
        lastEnqueuedAt := lastEnqueuedAt[d.id := now];
      }
    }

    /** The success callback of an emergency job. */
    method MarkDelivered(id: string, now: int)
      modifies this
      ensures View() == Step(old(View()), Delivered(id, now), repeat)
    {
      if activeDistressId == Some(id) {
        lastSentAt := now;
      }
    }
  }
}
