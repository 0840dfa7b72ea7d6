/** What moves the alarm on: how each of its stages ends, and that it does go off. */
module AlarmProgress {
  import opened Basics
  import opened Alarm
  import opened AlarmInvariant
  import opened AlarmTiming

  /** The initial delay of the alarm being prepared is over at this iteration. */
  predicate DelayOver(c: Config, f: Firmware, now: int) {
    Elapsed(f.tracker.triggerTime, now) >= c.initialDelay
  }

  /** A pending alarm is stopped only by the ignition, an ack, a clear or an override, and
      goes off at the first notification iteration after its delay. */
  lemma PendingEndsExactly(c: Config, f: Firmware, cmd: Command)
    requires Joint(f) && f.bus.mode.Pending?
    ensures Step(c, f, cmd).0.bus.mode ==
      match cmd
      case Poll(_, raw, _) => if Effective(f.bus, raw) then Active else Pending
      case Notify(_, _, now, _) => if DelayOver(c, f, now) then Distress else Pending
      case Ack => Armed
      case Clear => Armed
      case ForceEmpty(empty, _, _, _) => if empty then Armed else Active
      case _ => Pending
  {
  }

  /** A sounding alarm ends only by the ignition, a clear or an override; an ack only
      silences it, and it cannot be disarmed. */
  lemma DistressEndsExactly(c: Config, f: Firmware, cmd: Command)
    requires Joint(f) && f.bus.mode.Distress?
    ensures Step(c, f, cmd).0.bus.mode ==
      match cmd
      case Poll(_, raw, _) => if Effective(f.bus, raw) then Active else Distress
      case Ack => Acked
      case Clear => Armed
      case ForceEmpty(empty, _, _, _) => if empty then Armed else Active
      case _ => Distress
  {
  }

  /** An armed bus with no alarm takes any event as the start of one. */
  lemma ArmedTakesEvent(c: Config, f: Firmware, e: Event, at: int, now: int, wall: nat)
    requires Joint(f) && f.bus.mode.Armed? && f.tracker.phase.Idle?
    ensures var g := Step(c, f, Notify(Some(e), at, now, wall)).0;
      && g.tracker.event == e && g.tracker.triggerTime == at
      && g.bus.mode == if Elapsed(at, now) >= c.initialDelay then Distress else Pending
  {
  }

  /** Nobody answers: no ignition taking effect, no ack, clear or override; disarming is
      tried in vain. */
  ghost predicate Unattended(c: Config, f: Firmware, cmds: seq<Command>) {
    forall k :: 0 <= k < |cmds| ==> Passive(After(c, f, cmds[..k]), cmds[k])
  }

  predicate Passive(f: Firmware, cmd: Command) {
    match cmd
    case Poll(_, raw, _) => !Effective(f.bus, raw)
    case Notify(_, _, _, _) => true
    case Disarm => true
    case Reconnect => true
    case SetBaseline(_) => true
    case _ => false
  }

  lemma PassiveStep(c: Config, f: Firmware, cmd: Command)
    requires Joint(f) && Passive(f, cmd) && (f.bus.mode.Pending? || f.bus.mode.Distress?)
    ensures var g := Step(c, f, cmd).0;
      && g.bus.mode == (if f.bus.mode.Pending? && !(cmd.Notify? && DelayOver(c, f, cmd.now)) then Pending else Distress)
      && (g.bus.mode.Pending? ==> g.tracker.triggerTime == f.tracker.triggerTime)
  {
    if f.bus.mode.Pending? {
      PendingEndsExactly(c, f, cmd);
      if Step(c, f, cmd).0.bus.mode.Pending? { PendingOpensOnReceipt(c, f, cmd); }
    } else {
      DistressEndsExactly(c, f, cmd);
    }
  }

  lemma UnattendedBefore(c: Config, f: Firmware, cmds: seq<Command>, n: nat)
    requires Unattended(c, f, cmds) && |cmds| == n + 1
    ensures Unattended(c, f, cmds[..n]) && Passive(After(c, f, cmds[..n]), cmds[n])
  {
    hide Passive;
    hide After;
    assert forall k :: 0 <= k < n ==> cmds[..n][..k] == cmds[..k];
  }

  /** One of the run's notification iterations comes after the initial delay. */
  predicate Due(c: Config, f: Firmware, cmds: seq<Command>) {
    exists k :: 0 <= k < |cmds| && cmds[k].Notify? && DelayOver(c, f, cmds[k].now)
  }

  lemma DueOneMore(c: Config, f: Firmware, cmds: seq<Command>, n: nat)
    requires |cmds| == n + 1
    ensures Due(c, f, cmds) <==> Due(c, f, cmds[..n]) || (cmds[n].Notify? && DelayOver(c, f, cmds[n].now))
    ensures After(c, f, cmds) == Step(c, After(c, f, cmds[..n]), cmds[n]).0
  {
    hide DelayOver;
    hide Step;
    assert forall k :: 0 <= k < n ==> cmds[..n][k] == cmds[k];
  }

  /** Left unattended, a pending alarm is sounding after a run exactly when one of the run's
      notification iterations came after the initial delay. */
  lemma {:induction false} UnattendedAlarmGoesOff(c: Config, f: Firmware, cmds: seq<Command>)
    requires Joint(f) && f.bus.mode.Pending? && Unattended(c, f, cmds)
    ensures var g := After(c, f, cmds);
      && g.bus.mode == (if Due(c, f, cmds) then Distress else Pending)
      && (!Due(c, f, cmds) ==> g.tracker.triggerTime == f.tracker.triggerTime)
  {
    if cmds != [] {
      hide *;
      var n := |cmds| - 1;
      var g := After(c, f, cmds[..n]);
      UnattendedBefore(c, f, cmds, n);
      UnattendedAlarmGoesOff(c, f, cmds[..n]);
      JointAfter(c, f, cmds[..n]);
      DueOneMore(c, f, cmds, n);
      PassiveStep(c, g, cmds[n]);
      if g.bus.mode.Pending? && cmds[n].Notify? { SameDelay(c, f, g, cmds[n].now); }
    }
  }

  lemma SameDelay(c: Config, f: Firmware, g: Firmware, now: int)
    requires f.tracker.triggerTime == g.tracker.triggerTime
    ensures DelayOver(c, f, now) == DelayOver(c, g, now)
  {
  }

  /** An event taken by an armed bus and left unattended: the alarm sounds after a run
      exactly when its own iteration or a later one comes after the initial delay. */
  lemma EventSounds(c: Config, f: Firmware, e: Event, at: int, now: int, wall: nat, cmds: seq<Command>)
    requires Joint(f) && f.bus.mode.Armed? && f.tracker.phase.Idle?
    requires Unattended(c, Step(c, f, Notify(Some(e), at, now, wall)).0, cmds)
    ensures After(c, Step(c, f, Notify(Some(e), at, now, wall)).0, cmds).bus.mode.Distress? <==>
            (Elapsed(at, now) >= c.initialDelay ||
             exists k :: 0 <= k < |cmds| && cmds[k].Notify? && Elapsed(at, cmds[k].now) >= c.initialDelay)
  {
    var g := Step(c, f, Notify(Some(e), at, now, wall)).0;
    StepKeepsJoint(c, f, Notify(Some(e), at, now, wall));
    ArmedTakesEvent(c, f, e, at, now, wall);
    hide Step;
    hide Joint;
    hide Elapsed;
    if g.bus.mode.Pending? {
      UnattendedAlarmGoesOff(c, g, cmds);
      assert Due(c, g, cmds) <==>
        exists k :: 0 <= k < |cmds| && cmds[k].Notify? && Elapsed(at, cmds[k].now) >= c.initialDelay;
    } else {
      SoundingGoesOn(c, g, cmds);
    }
  }

  lemma {:induction false} SoundingGoesOn(c: Config, f: Firmware, cmds: seq<Command>)
    requires Joint(f) && f.bus.mode.Distress? && Unattended(c, f, cmds)
    ensures After(c, f, cmds).bus.mode.Distress?
  {
    if cmds != [] {
      hide Step;
      hide Joint;
      hide Passive;
      hide Unattended;
      var n := |cmds| - 1;
      UnattendedBefore(c, f, cmds, n);
      SoundingGoesOn(c, f, cmds[..n]);
      JointAfter(c, f, cmds[..n]);
      PassiveStep(c, After(c, f, cmds[..n]), cmds[n]);
    }
  }

  /** The command answers a sounding alarm: the ignition takes effect, or an operator acts. */
  predicate Answers(f: Firmware, cmd: Command) {
    match cmd
    case Poll(_, raw, _) => Effective(f.bus, raw)
    case Ack => true
    case Clear => true
    case ForceEmpty(_, _, _, _) => true
    case _ => false
  }

  ghost predicate SoundsThroughout(c: Config, f: Firmware, cmds: seq<Command>) {
    forall k :: 0 <= k <= |cmds| ==> After(c, f, cmds[..k]).bus.mode.Distress?
  }

  ghost predicate NoAnswer(c: Config, f: Firmware, cmds: seq<Command>) {
    forall k :: 0 <= k < |cmds| ==> !Answers(After(c, f, cmds[..k]), cmds[k])
  }

  lemma OneMoreSounds(c: Config, f: Firmware, cmds: seq<Command>, n: nat)
    requires |cmds| == n + 1
    ensures SoundsThroughout(c, f, cmds) <==>
            SoundsThroughout(c, f, cmds[..n]) && Step(c, After(c, f, cmds[..n]), cmds[n]).0.bus.mode.Distress?
    ensures SoundsThroughout(c, f, cmds[..n]) ==> After(c, f, cmds[..n]).bus.mode.Distress?
  {
    assert After(c, f, cmds) == Step(c, After(c, f, cmds[..n]), cmds[n]).0;
    hide Step;
    hide After;
    assert cmds[..n + 1] == cmds && cmds[..n][..n] == cmds[..n];
    assert forall k :: 0 <= k <= n ==> cmds[..n][..k] == cmds[..k];
  }

  lemma OneMoreAnswer(c: Config, f: Firmware, cmds: seq<Command>, n: nat)
    requires |cmds| == n + 1
    ensures NoAnswer(c, f, cmds) <==> NoAnswer(c, f, cmds[..n]) && !Answers(After(c, f, cmds[..n]), cmds[n])
  {
    hide Answers;
    hide After;
    assert forall k :: 0 <= k <= n ==> cmds[..n][..k] == cmds[..k];
  }

  /** A sounding alarm sounds after every step of a run exactly when nothing in the run
      answers it; in particular it cannot be disarmed. */
  lemma {:induction false} SoundsUntilAnswered(c: Config, f: Firmware, cmds: seq<Command>)
    requires Joint(f) && f.bus.mode.Distress?
    ensures SoundsThroughout(c, f, cmds) <==> NoAnswer(c, f, cmds)
  {
    if cmds != [] {
      hide *;
      var n := |cmds| - 1;
      var g := After(c, f, cmds[..n]);
      OneMoreSounds(c, f, cmds, n);
      OneMoreAnswer(c, f, cmds, n);
      SoundsUntilAnswered(c, f, cmds[..n]);
      JointAfter(c, f, cmds[..n]);
      if g.bus.mode.Distress? { AnsweredEnds(c, g, cmds[n]); }
    }
  }

  lemma AnsweredEnds(c: Config, f: Firmware, cmd: Command)
    requires Joint(f) && f.bus.mode.Distress?
    ensures Step(c, f, cmd).0.bus.mode.Distress? <==> !Answers(f, cmd)
  {
    DistressEndsExactly(c, f, cmd);
  }
}
