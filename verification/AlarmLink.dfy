/** The retained distress message at the broker when the MQTT link comes and goes. */
module AlarmLink {
  import opened Basics
  import opened Alarm
  import opened AlarmInvariant
  import opened AlarmTiming
  import opened AlarmOutputs

  /** `broker` is the retained distress message; Cleared when there is none. */
  datatype Linked = Linked(firmware: Firmware, up: bool, broker: Output)

  datatype Act =
    | Run(cmd: Command)
    | Connected
    | Disconnected

  /** Operator commands arrive over the link; polls, notification iterations and readings
      do not need it. A reconnect is part of Connected. */
  predicate Possible(l: Linked, cmd: Command) {
    match cmd
    case Poll(_, _, _) => true
    case Notify(_, _, _, _) => true
    case SetBaseline(_) => true
    case Reconnect => false
    case _ => l.up
  }

  /** Publishes and clears are dropped while the link is down. */
  function Move(c: Config, l: Linked, a: Act): Linked {
    match a
    case Run(cmd) =>
      if Possible(l, cmd) then
        Linked(Step(c, l.firmware, cmd).0, l.up,
               if l.up then Retained(l.broker, Step(c, l.firmware, cmd).1) else l.broker)
      else l
    case Connected => Linked(l.firmware, true, Retained(l.broker, ReconnectSends(l.firmware)))
    case Disconnected => l.(up := false)
  }

  /** The link is down at boot, and the broker may still hold anything. */
  function Boot(raw: bool, now: int, left: Output): Linked {
    Linked(Started(raw, now), false, left)
  }

  function Live(c: Config, l: Linked, acts: seq<Act>): Linked {
    if acts == [] then l else Move(c, Live(c, l, acts[..|acts| - 1]), acts[|acts| - 1])
  }

  /** A message that names no incident. */
  predicate Nameless(o: Output) { o.Published? && o.id.None? }

  /** While the link is up the broker's message agrees with the incident, or it is a
      nameless one and there is no incident. An acknowledged incident agrees even while
      the link is down. */
  ghost predicate Agrees(l: Linked) {
    && Joint(l.firmware)
    && (l.up ==> Mirrors(l.firmware, l.broker) || (Nameless(l.broker) && !l.firmware.bus.incident.active))
    && (l.firmware.bus.incident.acknowledged ==> Mirrors(l.firmware, l.broker))
  }

  predicate Touches(out: seq<Output>) {
    exists k :: 0 <= k < |out| && (out[k].Published? || out[k].Cleared?)
  }

  /** Outputs that touch the retained message determine it; others leave it. */
  lemma {:induction false} RetainedForgets(r: Output, s: Output, out: seq<Output>)
    ensures if Touches(out) then Retained(r, out) == Retained(s, out) && Retained(r, out) in out
            else Retained(r, out) == r
  {
    if out != [] {
      var n := |out| - 1;
      RetainedForgets(r, s, out[..n]);
      assert forall k :: 0 <= k < n ==> out[..n][k] == out[k];
      if Touches(out[..n]) {
        var k :| 0 <= k < n && (out[..n][k].Published? || out[..n][k].Cleared?);
        assert out[k].Published? || out[k].Cleared?;
      }
    }
  }

  /** The message a broker in agreement holds. */
  function MirrorOf(f: Firmware): Output {
    if f.bus.incident.active then Published(f.bus.incident.id, f.tracker.event) else Cleared
  }

  /** With the link up, a step from a broker in agreement keeps it so unless it is a stale
      broadcast; from a nameless message the next clear or incident restores it. */
  lemma UpStep(c: Config, f: Firmware, cmd: Command, r: Output)
    requires Joint(f)
    requires Mirrors(f, r) || (Nameless(r) && !f.bus.incident.active)
    ensures var (g, out) := Step(c, f, cmd);
      var s := Retained(r, out);
      && (Mirrors(g, s) || (Nameless(s) && !g.bus.incident.active))
      && (Mirrors(f, r) ==> (Mirrors(g, s) <==> !StaleBroadcast(c, f, cmd)))
      && (g.bus.incident.acknowledged ==> Mirrors(g, s))
  {
    var (g, out) := Step(c, f, cmd);
    StepKeepsJoint(c, f, cmd);
    StepMirrorsExactly(c, f, cmd, MirrorOf(f));
    RetainedForgets(r, MirrorOf(f), out);
    if Mirrors(f, r) { StepMirrorsExactly(c, f, cmd, r); }
    if StaleBroadcast(c, f, cmd) { StaleIsNameless(c, f, cmd, r); }
    ActiveIsNamed(f);
    ActiveIsNamed(g);
    hide Step;
    hide Retained;
    hide StaleBroadcast;
    hide Joint;
    hide Touches;
  }

  lemma ActiveIsNamed(f: Firmware)
    requires Joint(f)
    ensures f.bus.incident.active ==> f.bus.incident.id.Some?
    ensures f.bus.incident.acknowledged ==> f.bus.incident.active
  {
  }

  /** A stale broadcast is nameless, is the step's only message, and leaves no incident. */
  lemma StaleIsNameless(c: Config, f: Firmware, cmd: Command, r: Output)
    requires Joint(f) && StaleBroadcast(c, f, cmd)
    ensures Nameless(Retained(r, Step(c, f, cmd).1)) && !Step(c, f, cmd).0.bus.incident.active
  {
    var (f1, x) := if cmd.arrived.Some? then Receive(f, cmd.arrived.value, cmd.receivedAt) else (f, []);
    var (f2, y) := Advance(c, Settle(f1), cmd.now, cmd.wall);
    RetainedAppends(r, x, y);
    RetainedOne(r, if x != [] then x[0] else NearScan);
    RetainedOne(Retained(r, x), if y != [] then y[0] else NearScan);
    assert x != [] ==> x == [x[0]];
    assert y != [] ==> y == [y[0]];
    hide Retained;
  }

  /** With the link down nothing acknowledges, and an acknowledged incident keeps its id. */
  lemma DownStep(c: Config, f: Firmware, cmd: Command)
    requires Joint(f) && (cmd.Poll? || cmd.Notify? || cmd.SetBaseline?)
    ensures var g := Step(c, f, cmd).0;
      g.bus.incident.acknowledged ==> f.bus.incident.acknowledged && g.bus.incident == f.bus.incident
  {
  }

  lemma ConnectedAgrees(l: Linked)
    requires Agrees(l)
    ensures Mirrors(l.firmware, Retained(l.broker, ReconnectSends(l.firmware)))
  {
    RetainedOne(l.broker, Cleared);
    RetainedOne(l.broker, Published(l.firmware.bus.incident.id, l.firmware.tracker.event));
    hide Retained;
  }

  lemma MoveAgrees(c: Config, l: Linked, a: Act)
    requires Agrees(l)
    ensures Agrees(Move(c, l, a))
  {
    match a
    case Run(cmd) =>
      if Possible(l, cmd) {
        StepKeepsJoint(c, l.firmware, cmd);
        if l.up { UpStep(c, l.firmware, cmd, l.broker); } else { DownStep(c, l.firmware, cmd); }
        hide Step;
        hide Joint;
        hide Retained;
      }
    case Connected => ConnectedAgrees(l);
    case Disconnected =>
  }

  lemma {:induction false} AgreesAlways(c: Config, raw: bool, now: int, left: Output, acts: seq<Act>)
    ensures Agrees(Live(c, Boot(raw, now, left), acts))
  {
    if acts != [] {
      AgreesAlways(c, raw, now, left, acts[..|acts| - 1]);
      MoveAgrees(c, Live(c, Boot(raw, now, left), acts[..|acts| - 1]), acts[|acts| - 1]);
      hide Move;
      hide Agrees;
    }
  }

  /** Over every run with any drops of the link, whatever an earlier boot left at the
      broker: while the link is up, the retained message tells whether there is an incident,
      which, and its evidence, exactly unless it names no incident; and an acknowledged
      incident is the one retained, link or no link. */
  lemma BrokerMirrorsIncident(c: Config, raw: bool, now: int, left: Output, acts: seq<Act>)
    ensures var l := Live(c, Boot(raw, now, left), acts);
      && (l.up ==> (Mirrors(l.firmware, l.broker) <==> !Nameless(l.broker)))
      && (l.firmware.bus.incident.acknowledged ==> Mirrors(l.firmware, l.broker))
  {
    AgreesAlways(c, raw, now, left, acts);
    ActiveIsNamed(Live(c, Boot(raw, now, left), acts).firmware);
  }

  /** The step changes what the broker should hold: an alarm opens, the ignition closes an
      incident, or better evidence comes to one that is not acknowledged. */
  predicate Unheard(c: Config, f: Firmware, cmd: Command) {
    match cmd
    case Poll(_, raw, _) => f.bus.incident.active && Effective(f.bus, raw)
    case Notify(arrived, _, _, _) =>
      || (!f.bus.mode.Distress? && Step(c, f, cmd).0.bus.mode.Distress?)
      || (&& f.bus.incident.active && !f.bus.incident.acknowledged
          && arrived.Some? && BetterTrigger(f.tracker.event, arrived.value))
    case _ => false
  }

  lemma DownLosesExactly(c: Config, f: Firmware, cmd: Command, r: Output)
    requires Joint(f) && Mirrors(f, r) && (cmd.Poll? || cmd.Notify? || cmd.SetBaseline?)
    ensures Mirrors(Step(c, f, cmd).0, r) <==> !Unheard(c, f, cmd)
  {
    StepKeepsJoint(c, f, cmd);
  }

  /** What breaks agreement: over a live link a stale broadcast, over a dead one a change
      the broker should have heard of. */
  predicate Breaks(c: Config, l: Linked, a: Act) {
    a.Run? && Possible(l, a.cmd) &&
    if l.up then StaleBroadcast(c, l.firmware, a.cmd) else Unheard(c, l.firmware, a.cmd)
  }

  /** Agreement of broker and incident, link or no link, is lost exactly by these. */
  lemma AgreementLostExactly(c: Config, l: Linked, a: Act)
    requires Agrees(l) && Mirrors(l.firmware, l.broker)
    ensures Mirrors(Move(c, l, a).firmware, Move(c, l, a).broker) <==> !Breaks(c, l, a)
  {
    match a
    case Run(cmd) =>
      if l.up {
        StepMirrorsExactly(c, l.firmware, cmd, l.broker);
      } else if Possible(l, cmd) {
        DownLosesExactly(c, l.firmware, cmd, l.broker);
      }
      hide Step;
      hide Retained;
      hide Unheard;
    case Connected => ConnectedAgrees(l);
    case Disconnected =>
  }

  ghost predicate NothingBreaks(c: Config, l: Linked, acts: seq<Act>) {
    forall k :: 0 <= k < |acts| ==> !Breaks(c, Live(c, l, acts[..k]), acts[k])
  }

  ghost predicate MirrorsThroughout(c: Config, l: Linked, acts: seq<Act>) {
    forall k :: 0 <= k <= |acts| ==> MirrorsAt(Live(c, l, acts[..k]))
  }

  predicate MirrorsAt(l: Linked) { Mirrors(l.firmware, l.broker) }

  lemma OneMoreAct(c: Config, l: Linked, acts: seq<Act>, n: nat)
    requires |acts| == n + 1
    ensures Live(c, l, acts) == Move(c, Live(c, l, acts[..n]), acts[n])
    ensures NothingBreaks(c, l, acts) <==>
            NothingBreaks(c, l, acts[..n]) && !Breaks(c, Live(c, l, acts[..n]), acts[n])
  {
    hide Move;
    hide Breaks;
    assert forall k :: 0 <= k < n ==> acts[..n][..k] == acts[..k];
  }

  lemma OneMoreMirror(c: Config, l: Linked, acts: seq<Act>, n: nat)
    requires |acts| == n + 1
    ensures MirrorsThroughout(c, l, acts) <==> MirrorsThroughout(c, l, acts[..n]) && MirrorsAt(Live(c, l, acts))
    ensures MirrorsThroughout(c, l, acts[..n]) ==> MirrorsAt(Live(c, l, acts[..n]))
  {
    hide Live;
    hide MirrorsAt;
    assert acts[..n + 1] == acts && acts[..n][..n] == acts[..n];
    assert forall k :: 0 <= k <= n ==> acts[..n][..k] == acts[..k];
  }

  /** Over every run with drops, from agreement: the broker agrees after every step exactly
      if none of them is such a step. */
  lemma {:induction false} AgreesThroughoutExactly(c: Config, l: Linked, acts: seq<Act>)
    requires Agrees(l) && MirrorsAt(l)
    ensures Agrees(Live(c, l, acts))
    ensures MirrorsThroughout(c, l, acts) <==> NothingBreaks(c, l, acts)
  {
    if acts == [] {
      assert acts[..0] == acts;
    } else {
      hide Move;
      hide Agrees;
      hide Mirrors;
      hide Breaks;
      hide MirrorsThroughout;
      hide NothingBreaks;
      var n := |acts| - 1;
      var before := Live(c, l, acts[..n]);
      AgreesThroughoutExactly(c, l, acts[..n]);
      OneMoreAct(c, l, acts, n);
      OneMoreMirror(c, l, acts, n);
      MoveAgrees(c, before, acts[n]);
      if MirrorsAt(before) { AgreementLostExactly(c, before, acts[n]); }
    }
  }

  // ---- what a lost link loses ----

  lemma OneMoreMove(c: Config, l: Linked, acts: seq<Act>, a: Act)
    ensures Live(c, l, acts + [a]) == Move(c, Live(c, l, acts), a) && Live(c, l, []) == l
  {
    hide Move;
    assert (acts + [a])[..|acts|] == acts;
  }

  /** Connected and armed: the broker knows of no incident. */
  lemma ArmedOverLink(c: Config) returns (l: Linked)
    ensures l == Live(c, Boot(false, 1, Cleared), [Connected, Run(Poll(1 + Micros(c.exitGrace), false, 0))])
    ensures l.firmware == Step(c, Started(false, 1), Poll(1 + Micros(c.exitGrace), false, 0)).0
    ensures l.up && l.broker.Cleared?
  {
    var l0 := Boot(false, 1, Cleared);
    var a2 := Run(Poll(1 + Micros(c.exitGrace), false, 0));
    RetainedOne(Cleared, Cleared);
    assert Move(c, l0, Connected) == l0.(up := true);
    l := Move(c, l0.(up := true), a2);
    RetainedOfEnter(Cleared, ExitGrace, Armed);
    assert Step(c, l0.firmware, a2.cmd).1 == [] + EnterSends(ExitGrace, Armed) == EnterSends(ExitGrace, Armed);
    hide Step;
    hide Move;
    OneMoreMove(c, l0, [], Connected);
    OneMoreMove(c, l0, [Connected], a2);
    assert [] + [Connected] == [Connected] && [Connected] + [a2] == [Connected, a2];
  }

  lemma FiresWhileDown(c: Config, l: Linked, e: Event, at: int)
    requires !l.up && l.firmware == Step(c, Started(false, 1), Poll(1 + Micros(c.exitGrace), false, 0)).0
    ensures var g := Move(c, l, Run(Notify(Some(e), at, at + Micros(c.initialDelay), 0)));
      g.firmware.bus.mode.Distress? && g.firmware.bus.incident.active && g.broker == l.broker && !g.up
  {
    assert l.firmware.bus.mode.Armed?;
  }

  /** With the link down an incident opens unseen: the alarm is on, the broker has nothing,
      until the link is back. */
  lemma BroadcastLost(c: Config, e: Event, at: int) returns (acts: seq<Act>)
    ensures var l := Live(c, Boot(false, 1, Cleared), acts);
      && l.firmware.bus.mode.Distress? && l.firmware.bus.incident.active && l.broker.Cleared?
      && Mirrors(Move(c, l, Connected).firmware, Move(c, l, Connected).broker)
  {
    var l0 := Boot(false, 1, Cleared);
    var first := [Connected, Run(Poll(1 + Micros(c.exitGrace), false, 0))];
    var fire := Run(Notify(Some(e), at, at + Micros(c.initialDelay), 0));
    var l := ArmedOverLink(c);
    OneMoreMove(c, l0, first, Disconnected);
    OneMoreMove(c, l0, first + [Disconnected], fire);
    var down := Move(c, l, Disconnected);
    assert down == l.(up := false);
    FiresWhileDown(c, down, e, at);
    acts := first + [Disconnected] + [fire];
    AgreesAlways(c, false, 1, Cleared, acts);
    ConnectedAgrees(Live(c, l0, acts));
    hide Live;
    hide Step;
    hide Agrees;
    hide Boot;
  }
}
