/** Which distress messages matter to the relay at all, and exactly when a repeat is queued. */
module EmergencyExactly {
  import opened Basics
  import opened Emergency
  import opened EmergencyProofs

  /** A message delivered from the broker's store, one that is no emergency, or one that
      says neither that the distress is on nor that it is acknowledged. */
  predicate Ignored(a: Act) {
    a.Message? && (a.retained || !a.d.emergency || (!a.d.live && !a.d.acked))
  }

  function Heeded(acts: seq<Act>): seq<Act> {
    if acts == [] then []
    else Heeded(acts[..|acts| - 1]) + if Ignored(acts[|acts| - 1]) then [] else [acts[|acts| - 1]]
  }

  lemma RunOneMore(g: Gate, acts: seq<Act>, a: Act, interval: int)
    ensures Run(g, acts + [a], interval) == Step(Run(g, acts, interval), a, interval)
    ensures Enqueued(g, acts + [a], interval) ==
            Enqueued(g, acts, interval) + if Enqueues(Run(g, acts, interval), a, interval) then 1 else 0
  {
    assert (acts + [a])[..|acts|] == acts;
  }

  lemma IgnoredStep(g: Gate, a: Act, interval: int)
    requires Ignored(a)
    ensures Step(g, a, interval) == g && !Enqueues(g, a, interval)
  {
  }

  /** Such messages might as well not have come: the gate and the number of messages queued
      are those of the run without them. */
  lemma {:induction false} IgnoredDoNotMatter(g: Gate, acts: seq<Act>, interval: int)
    ensures Run(g, acts, interval) == Run(g, Heeded(acts), interval)
    ensures Enqueued(g, acts, interval) == Enqueued(g, Heeded(acts), interval)
  {
    hide Step, Enqueues, Ignored;
    if acts != [] {
      var before, a := acts[..|acts| - 1], acts[|acts| - 1];
      IgnoredDoNotMatter(g, before, interval);
      if Ignored(a) { IgnoredStep(Run(g, before, interval), a, interval); }
      RunOneMore(g, Heeded(before), a, interval);
      assert before + [a] == acts;
      assert Heeded(before) + [] == Heeded(before);
    }
  }

  /** A message that asks for attention. */
  predicate Asks(a: Act, id: string) {
    a.Message? && a.d.id == id && !a.retained && a.d.emergency && a.d.live && !a.d.acked
  }

  /** Time of the last message queued about the incident, from the acts alone: 0 after a
      restart, `queued` at the start. */
  function LastQueued(acts: seq<Act>, id: string, interval: int, sent: int, queued: int): int {
    if acts == [] then queued
    else
      var before, a := acts[..|acts| - 1], acts[|acts| - 1];
      var last := LastQueued(before, id, interval, sent, queued);
      if a.Restart? then 0
      else if Asks(a, id) && a.room && a.now - Max(LastDelivery(before, id, sent), last) >= interval then a.now
      else last
  }

  /** Nothing in the run speaks of an acknowledgement. */
  ghost predicate Unanswered(acts: seq<Act>) {
    forall a :: a in acts ==> !Shuts(a)
  }

  ghost predicate Waiting(g: Gate, id: string) { g.active == Some(id) && !g.acked && !g.busAck }

  lemma StepWaits(g: Gate, a: Act, interval: int, id: string)
    requires Waiting(g, id) && !a.Clear? && (a.Message? ==> a.d.id == id) && !Shuts(a)
    ensures var h := Step(g, a, interval);
      && Waiting(h, id)
      && Since(h.lastEnqueued, id) ==
         (if a.Restart? then 0
          else if Asks(a, id) && a.room && a.now - Max(g.lastSent, Since(g.lastEnqueued, id)) >= interval then a.now
          else Since(g.lastEnqueued, id))
  {
  }

  lemma {:induction false} LastQueuedRemembered(g: Gate, acts: seq<Act>, interval: int, id: string)
    requires Waiting(g, id) && Lasting(acts, id) && Unanswered(acts)
    ensures var h := Run(g, acts, interval);
      && Waiting(h, id)
      && h.lastSent == LastDelivery(acts, id, g.lastSent)
      && Since(h.lastEnqueued, id) == LastQueued(acts, id, interval, g.lastSent, Since(g.lastEnqueued, id))
  {
    hide Step;
    hide Shuts;
    DeliveryRemembered(g, acts, interval, id);
    if acts != [] {
      var n := |acts| - 1;
      assert acts[n] in acts && forall a :: a in acts[..n] ==> a in acts;
      LastQueuedRemembered(g, acts[..n], interval, id);
      StepWaits(Run(g, acts[..n], interval), acts[n], interval, id);
    }
  }

  /** A message about the incident under way is queued exactly when it asks for attention,
      the queue has room, and an interval has passed since the last delivery and since the
      last time one was queued, both read off the acts. */
  lemma RepeatQueuedExactly(g: Gate, acts: seq<Act>, m: Act, interval: int, id: string)
    requires Waiting(g, id) && Lasting(acts, id) && Unanswered(acts) && m.Message? && m.d.id == id
    ensures Enqueues(Run(g, acts, interval), m, interval) <==>
      && Asks(m, id) && m.room
      && m.now - LastDelivery(acts, id, g.lastSent) >= interval
      && m.now - LastQueued(acts, id, interval, g.lastSent, Since(g.lastEnqueued, id)) >= interval
  {
    LastQueuedRemembered(g, acts, interval, id);
    hide Run;
  }

  /** The first message about an incident is queued exactly when it asks for attention and
      the queue has room; queued or not, the incident is then the one under way. */
  lemma FirstQueuedExactly(g: Gate, m: Act, interval: int, id: string)
    requires g.active != Some(id) && !g.acked && !g.busAck && m.Message? && m.d.id == id
    ensures Enqueues(g, m, interval) <==> Asks(m, id) && m.room
    ensures Asks(m, id) ==> Waiting(Step(g, m, interval), id)
    ensures !Asks(m, id) ==> Step(g, m, interval).active == g.active
    ensures var h := Step(g, m, interval);
      && h.lastSent == g.lastSent
      && (Asks(m, id) ==> h.lastEnqueued.Keys == {id})
      && Since(h.lastEnqueued, id) == if Enqueues(g, m, interval) then m.now else Since(g.lastEnqueued, id)
  {
  }

  // ---- over the relay's whole life ----

  /** The acknowledged flag of the last bus state since the relay started. */
  predicate Up(acts: seq<Act>) {
    acts != [] &&
    var a := acts[|acts| - 1];
    if a.Restart? then false else if a.BusState? then a.acknowledged else Up(acts[..|acts| - 1])
  }

  /** The act tells of an acknowledgement: the flag going up, or a message that says so or
      comes while the flag is up. */
  predicate Answers(before: seq<Act>, a: Act) {
    || (a.BusState? && a.acknowledged && !Up(before))
    || (a.Message? && !Ignored(a) && (a.d.acked || Up(before)))
  }

  predicate Renews(a: Act) { a.Clear? || a.Restart? }

  ghost predicate AnsweredAt(acts: seq<Act>, i: int) {
    0 <= i < |acts| && Answers(acts[..i], acts[i]) && forall k :: i < k < |acts| ==> !Renews(acts[k])
  }

  ghost predicate Answered(acts: seq<Act>) { exists i :: AnsweredAt(acts, i) }

  lemma AnsweredStep(acts: seq<Act>, a: Act)
    ensures Answered(acts + [a]) <==> Answers(acts, a) || (Answered(acts) && !Renews(a))
  {
    hide Answers, Renews;
    var all := acts + [a];
    assert all[..|acts|] == acts && all[|acts|] == a;
    assert forall i :: 0 <= i < |acts| ==> all[..i] == acts[..i] && all[i] == acts[i];
    if i :| AnsweredAt(all, i) {
      if i < |acts| {
        forall k | i < k < |acts| ensures !Renews(acts[k]) { assert !Renews(all[k]); }
        assert !Renews(all[|acts|]);
        assert AnsweredAt(acts, i);
      }
    }
    if Answers(acts, a) { assert AnsweredAt(all, |acts|); }
    if Answered(acts) && !Renews(a) {
      var i :| AnsweredAt(acts, i);
      assert AnsweredAt(all, i);
    }
  }

  /** The incident under way: the last one asked about while the gate was open, until a clear. */
  ghost function Known(acts: seq<Act>): Option<string> {
    if acts == [] then None
    else
      var before, a := acts[..|acts| - 1], acts[|acts| - 1];
      if a.Clear? then None
      else if a.Message? && Asks(a, a.d.id) && !Up(before) && !Answered(before) then Some(a.d.id)
      else Known(before)
  }

  lemma StepGate(g: Gate, before: seq<Act>, a: Act, interval: int)
    requires g.busAck == Up(before)
    ensures var h := Step(g, a, interval);
      && h.busAck == (if a.Restart? then false else if a.BusState? then a.acknowledged else g.busAck)
      && (h.acked <==> Answers(before, a) || (g.acked && !Renews(a)))
      && h.active ==
         if a.Clear? then None
         else if a.Message? && Asks(a, a.d.id) && !g.busAck && !g.acked then Some(a.d.id)
         else g.active
  {
  }

  /** Over every run of the relay, clears and restarts included: the gate is shut exactly
      when an acknowledgement has come since the last of them, and the flag, and the incident
      under way, are those of the acts. */
  lemma {:induction false} GateExactly(acts: seq<Act>, interval: int)
    ensures var g := Run(OPEN, acts, interval);
      g.busAck == Up(acts) && (g.acked <==> Answered(acts)) && g.active == Known(acts)
  {
    hide Step, Answered, Answers, Renews, Asks;
    if acts != [] {
      var before, a := acts[..|acts| - 1], acts[|acts| - 1];
      assert before + [a] == acts;
      GateExactly(before, interval);
      AnsweredStep(before, a);
      StepGate(Run(OPEN, before, interval), before, a, interval);
    } else {
      NothingAnswered();
    }
  }

  lemma NothingAnswered()
    ensures !Answered([])
  {
  }

  /** So a message about a new incident is queued, at any moment of any run, exactly when it
      asks for attention, the queue has room, the flag is down and nothing has told of an
      acknowledgement since the last clear or restart. */
  lemma NewIncidentQueuedExactly(acts: seq<Act>, m: Act, interval: int)
    requires m.Message? && Known(acts) != Some(m.d.id)
    ensures Enqueues(Run(OPEN, acts, interval), m, interval) <==>
            Asks(m, m.d.id) && m.room && !Up(acts) && !Answered(acts)
  {
    GateExactly(acts, interval);
    hide Run, Up, Answered, Known;
  }
}
