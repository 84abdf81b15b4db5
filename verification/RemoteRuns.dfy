/**
 The deadline of the remote test over whole runs of the drive: the word that
 firmware/src/main.c computes when a test starts and polls on every
 housekeeping pass ends the test exactly when its time is over.
 */
module RemoteRuns {
  import opened Words
  import opened RunDeadline
  import opened Foreground
  import opened Drive
  import opened DriveRuns
  import opened MailboxRuns
  import R = RotorRuntime
  import S = Supervisor

  // ---- the durations and the deadline ----

  /** A requested remote test has durations that were checked. */
  predicate PlanHeld(d: Desk) {
    RemoteTest in d.starts ==> DurationAccepted(d.ramp, d.hold)
  }

  /** The plan is left alone while its start waits, the deadline while the test runs. */
  predicate PlanKept(d: Desk, e: Desk) {
    && (RemoteTest in e.starts ==> e.ramp == d.ramp && e.hold == d.hold)
    && (e.remoteActive ==> d.remoteActive && e.deadline == d.deadline)
  }

  lemma InformKeepsPlan()
    ensures forall d: Desk, e, ctx ::
              var i := Inform(d, e, ctx);
              i.ramp == d.ramp && i.hold == d.hold && i.deadline == d.deadline && i.remoteActive == d.remoteActive
  {}

  lemma EventsKeepPlan(d: Desk, taken: set<R.RotorEvent>)
    ensures PlanKept(d, HandleEvents(d, taken)) && PlanKept(d, FinishRecovery(d)) && PlanKept(d, CheckRemote(d))
  {
    hide S.Accepts, S.Authorized, Inform;
    InformKeepsPlan();
  }

  lemma GrantKeepsPlan(d: Desk, m: R.Mode, safe: bool, queued: bool)
    ensures Motor(m) in d.starts ==> PlanKept(d, Grant(d, m, safe))
    ensures PlanKept(d, Requested(d, queued))
  {
    hide S.Accepts, Inform, RequestEvent;
    InformKeepsPlan();
  }

  lemma FaultsKeepPlan(d: Desk, ready: bool, motionWasActive: bool)
    ensures PlanKept(d, FailDrive(d)) && PlanKept(d, FailStopped(d)) && PlanKept(d, Readiness(d, ready, motionWasActive))
  {
    hide S.Accepts, S.Authorized, Inform;
    InformKeepsPlan();
  }

  /** Only a start command, a probe and the remote block touch the plan of a test. */
  lemma StepKeepsPlan(d: Drive, s: Step)
    requires Enabled(d, s) && !s.StartCommand? && !s.ProbeCommand? && !s.ServeRemote?
    ensures PlanKept(d.desk, Apply(d, s).desk)
  {
    hide R.CallbackStep, HandleEvents, FinishRecovery, CheckRemote, Grant, GrantsStart, Requested;
    hide FailDrive, FailStopped, Readiness, ReadinessForcesFault, R.StartAccepted;
    match s
    case HandleTaken => EventsKeepPlan(d.desk, d.taken);
    case Recover(_) => EventsKeepPlan(d.desk, {});
    case VerifyRemote(_) => EventsKeepPlan(d.desk, {});
    case GrantStart(safe) => GrantKeepsPlan(d.desk, d.phase.mode, safe, true);
    case QueueStart(valid) =>
      GrantKeepsPlan(d.desk, d.phase.mode, true, R.StartAccepted(d.rotor, R.RequestStart(d.phase.mode, valid)));
    case SampleAdc(_) => FaultsKeepPlan(d.desk, true, true);
    case WatchLoop(_) => FaultsKeepPlan(d.desk, true, true);
    case CheckReadiness(_, ready, motionWasActive) => FaultsKeepPlan(d.desk, ready, motionWasActive);
    case _ =>
  }

  /** A poll that leaves a running test running keeps its deadline. */
  lemma PollKeepsDeadline(d: Desk, p: Poll, outcome: RemoteOutcome)
    requires d.remoteActive && RemoteTest !in d.starts && Remote(d, p, outcome).remoteActive
    ensures Remote(d, p, outcome).deadline == d.deadline
  {
    hide S.Handle, S.Accepts, EndsTest, StartRemote;
  }

  lemma CommandKeepsDeadline(d: Drive, s: Step)
    requires Enabled(d, s) && (s.StartCommand? || s.ProbeCommand?)
    requires d.desk.remoteActive && d.desk.sup.state != S.Ready
    ensures Apply(d, s).desk == d.desk
  {}

  /** While a test runs its deadline does not move. */
  lemma StepKeepsDeadline(d: Drive, s: Step)
    requires Good(d) && Enabled(d, s) && d.desk.remoteActive && Apply(d, s).desk.remoteActive
    ensures Apply(d, s).desk.deadline == d.desk.deadline
  {
    RunningIsNotReady(d);
    if s.StartCommand? || s.ProbeCommand? {
      hide Apply, Enabled, Good;
      CommandKeepsDeadline(d, s);
    } else if s.ServeRemote? {
      hide Good, Remote;
      PollKeepsDeadline(d.desk, s.poll, s.remote);
    } else {
      hide Apply, Enabled, Good;
      StepKeepsPlan(d, s);
    }
  }

  lemma RunningIsNotReady(d: Drive)
    requires Good(d) && d.desk.remoteActive
    ensures d.desk.sup.state != S.Ready && d.desk.starts == {}
  {}

  lemma StepKeepsPlanHeld(d: Drive, s: Step)
    requires PlanHeld(d.desk) && Enabled(d, s)
    ensures PlanHeld(Apply(d, s).desk)
  {
    if s.StartCommand? {
      hide DurationAccepted;
    } else if s.ProbeCommand? {
      hide DurationAccepted, S.Handle, S.Accepts;
    } else if s.ServeRemote? {
      hide Remote, DurationAccepted;
      RemoteTame(d.desk, s.poll, s.remote);
    } else {
      hide Apply, Enabled, DurationAccepted;
      StepTame(d, s);
      StepKeepsPlan(d, s);
    }
  }

  lemma {:induction false} PlanAlwaysHeld(run: seq<Drive>, steps: seq<Step>, n: nat)
    requires DriveRun(run, steps) && n <= |steps|
    ensures PlanHeld(run[n].desk)
  {
    hide Enabled, Apply, DurationAccepted;
    if n > 0 {
      PlanAlwaysHeld(run, steps, n - 1);
      assert Enabled(run[n - 1], steps[n - 1]);
      StepKeepsPlanHeld(run[n - 1], steps[n - 1]);
    }
  }

  /** The test runs in all states from a to b. */
  ghost predicate RunningFrom(run: seq<Drive>, a: nat, b: nat) {
    a <= b < |run| && forall k :: a <= k <= b ==> run[k].desk.remoteActive
  }

  lemma {:induction false} DeadlineStays(run: seq<Drive>, steps: seq<Step>, a: nat, b: nat)
    requires DriveRun(run, steps) && AllTimely(run, steps) && RunningFrom(run, a, b)
    ensures run[b].desk.deadline == run[a].desk.deadline
    decreases b
  {
    hide Enabled, Apply, Timely, Good;
    if a < b {
      DeadlineStays(run, steps, a, b - 1);
      TimelyRunIsGood(run, steps, b - 1);
      assert Enabled(run[b - 1], steps[b - 1]);
      StepKeepsDeadline(run[b - 1], steps[b - 1]);
    }
  }

  // ---- the end of a test ----

  /** Step i starts a remote test at the true time `start`, in milliseconds. */
  ghost predicate StartsTest(run: seq<Drive>, steps: seq<Step>, i: nat, start: nat)
    requires |run| == |steps| + 1
  {
    && i < |steps| && steps[i].ServeRemote? && steps[i].poll.now == Wrap(start)
    && !run[i].desk.remoteActive && run[i + 1].desk.remoteActive
  }

  lemma StartSetsDeadline(run: seq<Drive>, steps: seq<Step>, i: nat, start: nat)
    requires DriveRun(run, steps) && StartsTest(run, steps, i, start)
    ensures DurationAccepted(run[i].desk.ramp, run[i].desk.hold)
    ensures run[i + 1].desk.deadline == DeadlineWord(Wrap(start), run[i].desk.ramp, run[i].desk.hold)
  {
    hide Enabled, DurationAccepted, DeadlineWord, Remote;
    PlanAlwaysHeld(run, steps, i);
    var d, s := run[i], steps[i];
    assert Enabled(d, s) && run[i + 1] == Apply(d, s);
    RemoteApplied(d, s);
    RemoteMeaning(d.desk, s.poll, s.remote);
  }

  lemma RemoteApplied(d: Drive, s: Step)
    requires Enabled(d, s) && s.ServeRemote?
    ensures Apply(d, s).desk == Remote(d.desk, s.poll, s.remote)
  {
    hide Remote;
  }

  /**
   A test started at `start` and still running is ended by the poll at `time`,
   less than 2^31 ms past its deadline, exactly when the button or the probe
   ends it, its stop is pending, or housekeeping is due and the time requested
   for ramp and hold is over: never early, and by the first due poll at or
   after the deadline.
   */
  lemma TestEndsAtDeadline(run: seq<Drive>, steps: seq<Step>, i: nat, start: nat, n: nat, time: nat)
    requires DriveRun(run, steps) && AllTimely(run, steps)
    requires StartsTest(run, steps, i, start) && RunningFrom(run, i + 1, n)
    requires n < |steps| && steps[n].ServeRemote? && steps[n].poll.now == Wrap(time)
    requires start <= time < start + run[i].desk.ramp + run[i].desk.hold + TWO_31
    ensures
      var d, p := run[n].desk, steps[n].poll;
      !run[n + 1].desk.remoteActive <==>
      p.ended || RemoteTest in d.stops || (p.due && start + run[i].desk.ramp + run[i].desk.hold <= time)
  {
    hide Enabled, Apply, Timely, Good, DurationAccepted, DeadlineWord, Expired, Remote;
    var d, s := run[n], steps[n];
    StartSetsDeadline(run, steps, i, start);
    DeadlineStays(run, steps, i + 1, n);
    DeadlineRefinement(start, run[i].desk.ramp, run[i].desk.hold, time);
    TimelyRunIsGood(run, steps, n);
    RunningIsNotReady(d);
    assert Enabled(d, s) && run[n + 1] == Apply(d, s);
    RemoteApplied(d, s);
    RemoteMeaning(d.desk, s.poll, s.remote);
  }
}
