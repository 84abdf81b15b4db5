/**
 The five start and five stop mailboxes over whole runs of the drive. Nothing
 here depends on the timing of callbacks or on what the runtime reports.
 */
module MailboxRuns {
  import opened Foreground
  import opened RotorRuntime
  import opened Drive
  import opened DriveRuns
  import opened Words
  import opened RunDeadline
  import S = Supervisor

  predicate BoxesHeld(d: Drive) {
    S.InvariantsHold(d.desk.sup) && MailboxesHeld(d.desk, d.phase)
  }

  /** The step accepts a start command for this mailbox. */
  predicate Accepted(d: Drive, s: Step, x: Mailbox) {
    s.StartCommand? && s.order.box == x && OrderAccepted(d.desk, s.order, s.permitted)
  }

  /** The request that a start in this mailbox becomes. */
  function RequestOf(x: Mailbox): S.Event {
    if x.RemoteTest? then S.DiagnosticOperationRequested else RequestEvent(x.mode)
  }

  /** The step tells the supervisor this event. */
  predicate Tells(d: Drive, s: Step, e: S.Event)
    requires Enabled(d, s)
  {
    var before, after := d.desk.told, Apply(d, s).desk.told;
    exists i :: |before| <= i < |after| && after[i].event == e
  }

  /** The step takes a start out of its mailbox and makes the request it stands for. */
  predicate Forwards(d: Drive, s: Step, x: Mailbox)
    requires Enabled(d, s)
  {
    && x in d.desk.starts && x !in Apply(d, s).desk.starts
    && Tells(d, s, RequestOf(x))
  }

  // ---- what the blocks do to the mailboxes ----

  /** No start appears, a start whose stop is pending keeps it or goes with it, and the invariants stay. */
  predicate Tame(d: Desk, e: Desk) {
    && e.starts <= d.starts
    && (forall x :: x in e.starts && x in d.stops ==> x in e.stops)
    && (S.InvariantsHold(d.sup) ==> S.InvariantsHold(e.sup))
  }

  lemma InformTame()
    ensures forall d: Desk, e, ctx ::
              var i := Inform(d, e, ctx); i.starts == d.starts && i.stops == d.stops && S.InvariantsHold(i.sup)
  {}

  lemma EventsTame(d: Desk, taken: set<RotorEvent>)
    ensures Tame(d, HandleEvents(d, taken))
  {
    hide S.InvariantsHold, S.Accepts, S.Authorized, Inform;
    InformTame();
  }

  lemma CommandsTame(d: Desk, permitted: bool, duration: uint32, now: uint32, outcome: ProbeOutcome)
    ensures Tame(d, Probe(d, permitted, duration, now, outcome)) && Tame(d, FinishRecovery(d))
    ensures Tame(d, StopEverything(d)) && Tame(d, BeginRecovery(d))
    ensures Probe(d, permitted, duration, now, outcome).starts == d.starts
  {
    hide S.InvariantsHold, S.Accepts, Inform;
    InformTame();
  }

  lemma StopsTame(d: Desk, raised: set<Mailbox>)
    ensures Tame(d, RaiseStops(d, raised)) && Tame(d, ServeAlignmentStop(d)) && Tame(d, ServeMotionStop(d))
  {}

  lemma GrantTame(d: Desk, m: Mode, safe: bool, queued: bool)
    ensures Motor(m) in d.starts ==> Tame(d, Grant(d, m, safe)) && Grant(d, m, safe).stops == d.stops
    ensures Motor(m) in d.starts ==> Grant(d, m, safe).starts == d.starts - {Motor(m)}
    ensures Tame(d, Requested(d, queued)) && Requested(d, queued).stops == d.stops
  {
    hide S.InvariantsHold, S.Accepts, Inform, RequestEvent;
    InformTame();
  }

  lemma RemoteTame(d: Desk, p: Poll, outcome: RemoteOutcome)
    ensures Tame(d, Remote(d, p, outcome)) && Tame(d, CheckRemote(d))
    ensures RemoteTest !in Remote(d, p, outcome).starts
  {
    hide S.InvariantsHold, S.Accepts, S.Authorized, Inform, EndsTest;
    InformTame();
  }

  lemma FaultsTame(d: Desk, ready: bool, motionWasActive: bool)
    ensures Tame(d, FailDrive(d)) && Tame(d, FailStopped(d)) && Tame(d, Readiness(d, ready, motionWasActive))
  {
    hide S.InvariantsHold, S.Accepts, S.Authorized, Inform;
    InformTame();
  }

  /** Every step is tame but the one that accepts a start. */
  lemma StepTame(d: Drive, s: Step)
    requires Enabled(d, s) && !(s.StartCommand? && OrderAccepted(d.desk, s.order, s.permitted))
    ensures Tame(d.desk, Apply(d, s).desk)
  {
    hide S.InvariantsHold, CallbackStep, HandleEvents, Probe, FinishRecovery, BeginRecovery, StopEverything, RaiseStops;
    hide ServeAlignmentStop, ServeMotionStop, Grant, GrantsStart, Requested, Remote, CheckRemote;
    hide FailDrive, FailStopped, Readiness, ReadinessForcesFault, OrderAccepted;
    match s
    case HandleTaken => EventsTame(d.desk, d.taken);
    case ProbeCommand(permitted, duration, now, outcome) => CommandsTame(d.desk, permitted, duration, now, outcome);
    case StopCommand => CommandsTame(d.desk, true, 0, 0, ProbeRefused);
    case ClearFaultsCommand => CommandsTame(d.desk, true, 0, 0, ProbeRefused);
    case Recover(_) => CommandsTame(d.desk, true, 0, 0, ProbeRefused);
    case EndCommands(linkLost) => StopsTame(d.desk, if linkLost then MAILBOXES else {});
    case Press(pressed) => StopsTame(d.desk, pressed);
    case ServeAlignment => StopsTame(d.desk, {});
    case ServeMotion => StopsTame(d.desk, {});
    case GrantStart(safe) => GrantTame(d.desk, d.phase.mode, safe, true);
    case QueueStart(valid) =>
      GrantTame(d.desk, d.phase.mode, true, StartAccepted(d.rotor, RequestStart(d.phase.mode, valid)));
    case ServeRemote(p, outcome) => RemoteTame(d.desk, p, outcome);
    case VerifyRemote(_) => RemoteTame(d.desk, Poll(0, true, true, true, true), RemoteDone);
    case SampleAdc(_) => FaultsTame(d.desk, true, true);
    case WatchLoop(_) => FaultsTame(d.desk, true, true);
    case CheckReadiness(_, ready, motionWasActive) => FaultsTame(d.desk, ready, motionWasActive);
    case _ =>
  }

  // ---- the invariant of the mailboxes ----

  /** Outside the window of the starts the mailboxes are empty and stay so. */
  lemma EmptyStays(d: Drive, s: Step)
    requires BoxesHeld(d) && Enabled(d, s) && d.desk.starts == {} && !s.StartCommand?
    ensures Apply(d, s).desk.starts == {} && S.InvariantsHold(Apply(d, s).desk.sup)
  {
    hide Enabled, Apply;
    StepTame(d, s);
  }

  lemma EmptyOutsideWindow(d: Drive)
    requires BoxesHeld(d)
    requires d.phase in {Top, EventsTaken, Recovering, RemoteCheck, AdcSample, AdcLoop, ReadinessTurn} || d.phase.Requesting?
    ensures d.desk.starts == {}
  {}

  /** A desk without starts needs only its served stops. */
  lemma EmptyIsHeld(d: Drive)
    requires S.InvariantsHold(d.desk.sup) && d.desk.starts == {}
    requires d.phase == Granting(Alignment) ==> Motor(Alignment) !in d.desk.stops
    requires (d.phase.Granting? || d.phase.Requesting?) && d.phase.mode != Alignment ==> d.desk.stops !! MOTIONS
    ensures BoxesHeld(d)
  {}

  predicate LeavesWindowAlone(s: Step) {
    || s.Take? || s.HandleTaken? || s.Recover? || s.VerifyRemote?
    || s.SampleAdc? || s.WatchLoop? || s.CheckReadiness?
  }

  lemma OutsideKeepsBoxes(d: Drive, s: Step)
    requires BoxesHeld(d) && Enabled(d, s) && LeavesWindowAlone(s)
    ensures BoxesHeld(Apply(d, s))
  {
    hide BoxesHeld, S.InvariantsHold;
    PhaseOutside(d, s);
    EmptyOutsideWindow(d);
    EmptyStays(d, s);
    EmptyIsHeld(Apply(d, s));
  }

  lemma PhaseOutside(d: Drive, s: Step)
    requires Enabled(d, s) && LeavesWindowAlone(s)
    ensures d.phase in {Top, EventsTaken, Recovering, RemoteCheck, AdcSample, AdcLoop, ReadinessTurn}
    ensures !Apply(d, s).phase.Granting? && !Apply(d, s).phase.Requesting?
  {
    hide HandleEvents, FinishRecovery, CheckRemote, FailDrive, FailStopped, Readiness, ReadinessForcesFault;
  }

  lemma CommandKeepsBoxes(d: Drive, s: Step)
    requires BoxesHeld(d) && Enabled(d, s)
    requires s.StartCommand? || s.ProbeCommand? || s.StopCommand? || s.ClearFaultsCommand?
    ensures BoxesHeld(Apply(d, s))
  {
    hide S.Handle, Inform, Demand, Fail;
    if s.ProbeCommand? {
      CommandsTame(d.desk, s.permitted, s.duration, s.now, s.probe);
    }
  }

  lemma StopKeepsBoxes(d: Drive, s: Step)
    requires BoxesHeld(d) && Enabled(d, s)
    requires s.Interrupt? || s.EndCommands? || s.Press? || s.ServeAlignment? || s.ServeMotion?
    ensures BoxesHeld(Apply(d, s))
  {
    hide CallbackStep;
  }

  lemma GrantKeepsBoxes(d: Drive, s: Step)
    requires BoxesHeld(d) && Enabled(d, s) && s.GrantStart?
    ensures BoxesHeld(Apply(d, s))
  {
    hide Grant, GrantsStart, S.InvariantsHold;
    var m := d.phase.mode;
    if Motor(m) in d.desk.starts {
      GrantTame(d.desk, m, s.safe, true);
      EmptyIsHeld(Apply(d, s));
    } else {
      forall x | x in d.desk.starts ensures InWindow(x, AfterGrant(m)) {
        WindowMoves(x, m);
      }
    }
  }

  lemma QueueKeepsBoxes(d: Drive, s: Step)
    requires BoxesHeld(d) && Enabled(d, s) && s.QueueStart?
    ensures BoxesHeld(Apply(d, s))
  {
    hide Requested, Queueing, S.InvariantsHold, InWindow, StartAccepted;
    EmptyOutsideWindow(d);
    GrantTame(d.desk, d.phase.mode, true, StartAccepted(d.rotor, RequestStart(d.phase.mode, s.valid)));
    EmptyIsHeld(Apply(d, s));
  }

  lemma RemoteKeepsBoxes(d: Drive, s: Step)
    requires BoxesHeld(d) && Enabled(d, s) && s.ServeRemote?
    ensures BoxesHeld(Apply(d, s))
  {
    hide Remote, S.InvariantsHold;
    RemoteTame(d.desk, s.poll, s.remote);
    assert d.desk.starts <= {RemoteTest};
    EmptyIsHeld(Apply(d, s));
  }

  lemma StepKeepsBoxes(d: Drive, s: Step)
    requires BoxesHeld(d) && Enabled(d, s)
    ensures BoxesHeld(Apply(d, s))
  {
    hide BoxesHeld, Enabled, Apply;
    match s
    case Interrupt(_, _) => StopKeepsBoxes(d, s);
    case StartCommand(_, _) => CommandKeepsBoxes(d, s);
    case ProbeCommand(_, _, _, _) => CommandKeepsBoxes(d, s);
    case StopCommand => CommandKeepsBoxes(d, s);
    case ClearFaultsCommand => CommandKeepsBoxes(d, s);
    case EndCommands(_) => StopKeepsBoxes(d, s);
    case Press(_) => StopKeepsBoxes(d, s);
    case ServeAlignment => StopKeepsBoxes(d, s);
    case ServeMotion => StopKeepsBoxes(d, s);
    case GrantStart(_) => GrantKeepsBoxes(d, s);
    case QueueStart(_) => QueueKeepsBoxes(d, s);
    case ServeRemote(_, _) => RemoteKeepsBoxes(d, s);
    case _ => OutsideKeepsBoxes(d, s);
  }

  lemma {:induction false} BoxesAlwaysHeld(run: seq<Drive>, steps: seq<Step>, n: nat)
    requires DriveRun(run, steps) && n <= |steps|
    ensures BoxesHeld(run[n])
  {
    hide Enabled, Apply;
    if n > 0 {
      BoxesAlwaysHeld(run, steps, n - 1);
      assert Enabled(run[n - 1], steps[n - 1]);
      StepKeepsBoxes(run[n - 1], steps[n - 1]);
    }
  }

  /** Only an accepted start command fills a start mailbox, and only when no stop is pending. */
  lemma FillingStep(d: Drive, s: Step, x: Mailbox)
    requires Enabled(d, s) && x in Apply(d, s).desk.starts && x !in d.desk.starts
    ensures Accepted(d, s, x) && d.desk.stops == {} && d.desk.starts == {}
  {
    if s.StartCommand? {
      AcceptedOrder(d, s, x);
    } else {
      hide Enabled, Apply;
      StepTame(d, s);
    }
  }

  lemma AcceptedOrder(d: Drive, s: Step, x: Mailbox)
    requires Enabled(d, s) && s.StartCommand? && x in Apply(d, s).desk.starts && x !in d.desk.starts
    ensures Accepted(d, s, x) && d.desk.stops == {} && d.desk.starts == {}
  {}

  // ---- requests ----

  /** No request is among the events told from one desk to the next. */
  predicate AsksNothing(d: Desk, e: Desk) {
    d.told <= e.told && forall i :: |d.told| <= i < |e.told| ==> e.told[i].event !in S.REQUESTS
  }

  lemma InformTells()
    ensures forall d: Desk, e, ctx :: Inform(d, e, ctx).told == d.told + [S.Input(e, ctx)]
  {}

  lemma EventsAskNothing(d: Desk, taken: set<RotorEvent>)
    ensures AsksNothing(d, HandleEvents(d, taken))
  {
    hide S.Accepts, S.Authorized, Inform;
    InformTells();
  }

  lemma RecoveryAsksNothing(d: Desk, queued: bool)
    ensures AsksNothing(d, FinishRecovery(d)) && AsksNothing(d, Requested(d, queued)) && AsksNothing(d, CheckRemote(d))
  {
    hide S.Accepts, S.Authorized, Inform;
    InformTells();
  }

  lemma FaultsAskNothing(d: Desk, ready: bool, motionWasActive: bool)
    ensures AsksNothing(d, FailDrive(d)) && AsksNothing(d, FailStopped(d))
    ensures AsksNothing(d, Readiness(d, ready, motionWasActive))
  {
    hide S.Accepts, S.Authorized, Inform;
    InformTells();
  }

  /** Only a probe, the grant blocks and the remote block ask the supervisor for anything. */
  lemma StepAsksNothing(d: Drive, s: Step)
    requires Enabled(d, s) && !s.ProbeCommand? && !s.GrantStart? && !s.ServeRemote?
    ensures AsksNothing(d.desk, Apply(d, s).desk)
  {
    hide CallbackStep, HandleEvents, FinishRecovery, Requested, CheckRemote;
    hide FailDrive, FailStopped, Readiness, ReadinessForcesFault, OrderAccepted, StartAccepted;
    match s
    case HandleTaken => EventsAskNothing(d.desk, d.taken);
    case Recover(_) => RecoveryAsksNothing(d.desk, true);
    case QueueStart(valid) => RecoveryAsksNothing(d.desk, StartAccepted(d.rotor, RequestStart(d.phase.mode, valid)));
    case VerifyRemote(_) => RecoveryAsksNothing(d.desk, true);
    case SampleAdc(_) => FaultsAskNothing(d.desk, true, true);
    case WatchLoop(_) => FaultsAskNothing(d.desk, true, true);
    case CheckReadiness(_, ready, motionWasActive) => FaultsAskNothing(d.desk, ready, motionWasActive);
    case _ =>
  }

  lemma RequestsAreRequests(x: Mailbox)
    ensures RequestOf(x) in S.REQUESTS
  {}

  /** Only the grant block of its mode, or the remote block, makes the request of a start. */
  lemma RequestingStep(d: Drive, s: Step, x: Mailbox)
    requires Enabled(d, s) && Forwards(d, s, x)
    ensures (s.GrantStart? && x == Motor(d.phase.mode)) || (s.ServeRemote? && x == RemoteTest)
  {
    if s.ProbeCommand? {
      hide Probe;
      CommandsTame(d.desk, s.permitted, s.duration, s.now, s.probe);
    } else if s.GrantStart? {
      hide Grant, GrantsStart;
      GrantTame(d.desk, d.phase.mode, s.safe, true);
    } else if s.ServeRemote? {
      hide S.Accepts, S.Handle, Expired, DeadlineWord;
    } else {
      hide Apply, Enabled, RequestOf;
      RequestsAreRequests(x);
      StepAsksNothing(d, s);
    }
  }

  lemma ForwardingStep(d: Drive, s: Step, x: Mailbox)
    requires BoxesHeld(d) && Enabled(d, s) && Forwards(d, s, x)
    ensures x !in d.desk.stops
  {
    RequestingStep(d, s, x);
    if s.ServeRemote? && RemoteTest in d.desk.stops {
      RemoteForwards(d.desk, s.poll, s.remote);
    }
  }

  /** A remote block that finds its stop pending makes no request. */
  lemma RemoteForwards(d: Desk, p: Poll, outcome: RemoteOutcome)
    requires RemoteTest in d.stops
    ensures
      var after := Remote(d, p, outcome).told;
      forall i :: |d.told| <= i < |after| ==> after[i].event != S.DiagnosticOperationRequested
  {
    hide S.Handle, S.Accepts, StartRemote, EndsTest;
  }

  /**
   In every state of every run at most one start mailbox is full; it was filled
   while no stop was pending, and it is never handed on beside its own stop.
   */
  lemma MailboxExclusion(run: seq<Drive>, steps: seq<Step>, n: nat)
    requires DriveRun(run, steps) && n <= |steps|
    ensures forall x, y :: x in run[n].desk.starts && y in run[n].desk.starts ==> x == y
    ensures run[n].desk.starts != {} ==> run[n].desk.sup == S.Status(S.Ready, S.NoAuthority)
    ensures n < |steps| ==>
              forall x :: x in run[n + 1].desk.starts && x !in run[n].desk.starts ==>
                            Accepted(run[n], steps[n], x) && run[n].desk.stops == {}
    ensures n < |steps| ==>
              && Enabled(run[n], steps[n])
              && forall x :: Forwards(run[n], steps[n], x) ==> x !in run[n].desk.stops
  {
    hide Enabled, Apply, Accepted, Forwards;
    BoxesAlwaysHeld(run, steps, n);
    if n < |steps| {
      var d, s := run[n], steps[n];
      forall x | x in run[n + 1].desk.starts && x !in d.desk.starts
        ensures Accepted(d, s, x) && d.desk.stops == {}
      {
        FillingStep(d, s, x);
      }
      forall x | Forwards(d, s, x) ensures x !in d.desk.stops {
        ForwardingStep(d, s, x);
      }
    }
  }

  /** A stop of this mailbox is pending, or there is no start left for it to cancel. */
  predicate Cancelled(d: Desk, x: Mailbox) {
    x in d.stops || x !in d.starts
  }

  lemma StepKeepsCancelled(d: Drive, s: Step, x: Mailbox)
    requires Enabled(d, s) && Cancelled(d.desk, x) && !Accepted(d, s, x)
    ensures Cancelled(Apply(d, s).desk, x)
  {
    if s.StartCommand? && OrderAccepted(d.desk, s.order, s.permitted) {
      OtherOrder(d, s, x);
    } else {
      hide Enabled, Apply;
      StepTame(d, s);
    }
  }

  lemma OtherOrder(d: Drive, s: Step, x: Mailbox)
    requires Enabled(d, s) && s.StartCommand? && OrderAccepted(d.desk, s.order, s.permitted) && s.order.box != x
    ensures x !in Apply(d, s).desk.starts
  {}

  lemma {:induction false} CancelledUntilAccepted(run: seq<Drive>, steps: seq<Step>, i: nat, n: nat, x: Mailbox)
    requires DriveRun(run, steps) && i <= n <= |steps|
    requires Cancelled(run[i].desk, x)
    requires forall k :: i <= k < n ==> !Accepted(run[k], steps[k], x)
    ensures Cancelled(run[n].desk, x)
  {
    hide Enabled, Apply, Accepted, Cancelled;
    if i < n {
      CancelledUntilAccepted(run, steps, i, n - 1, x);
      assert !Accepted(run[n - 1], steps[n - 1], x);
      StepKeepsCancelled(run[n - 1], steps[n - 1], x);
    }
  }

  /**
   A start that is handed on is newer than every stop of its mailbox: between a
   state in which the stop was pending and the hand-over, the start was
   accepted again, and no stop was pending then.
   */
  lemma ForwardedStartIsNewer(run: seq<Drive>, steps: seq<Step>, i: nat, n: nat, x: Mailbox)
    returns (j: nat)
    requires DriveRun(run, steps) && i <= n < |steps|
    requires x in run[i].desk.stops && Enabled(run[n], steps[n]) && Forwards(run[n], steps[n], x)
    ensures i <= j < n && Accepted(run[j], steps[j], x) && run[j].desk.stops == {}
  {
    hide Enabled, Apply, Forwards;
    if forall k :: i <= k < n ==> !Accepted(run[k], steps[k], x) {
      CancelledUntilAccepted(run, steps, i, n, x);
      BoxesAlwaysHeld(run, steps, n);
      ForwardedIsFull(run[n], steps[n], x);
      ForwardingStep(run[n], steps[n], x);
      assert false;
    }
    j :| i <= j < n && Accepted(run[j], steps[j], x);
  }

  lemma ForwardedIsFull(d: Drive, s: Step, x: Mailbox)
    requires Enabled(d, s) && Forwards(d, s, x)
    ensures x in d.desk.starts
  {}
}
