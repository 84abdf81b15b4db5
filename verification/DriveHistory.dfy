/**
 What the foreground tells the supervisor over a run of the drive, and what that
 history says about a live cascade.
 */
module DriveHistory {
  import opened Foreground
  import opened RotorRuntime
  import opened Drive
  import opened DriveRuns
  import opened Words
  import S = Supervisor

  /** The status is the outcome of what the supervisor has been told. */
  ghost predicate Recorded(d: Desk) {
    S.After(d.told) == d.sup
  }

  lemma InformKeepsRecorded(d: Desk, e: S.Event, ctx: S.Context)
    requires Recorded(d)
    ensures Recorded(Inform(d, e, ctx)) && d.told <= Inform(d, e, ctx).told
  {
    hide S.Handle;
    var longer := Inform(d, e, ctx).told;
    assert longer[..|longer| - 1] == d.told;
  }

  /** From one desk to the next the record stays right and only grows. */
  ghost predicate Extends(d: Desk, e: Desk) {
    Recorded(d) ==> Recorded(e) && d.told <= e.told
  }

  lemma InformExtends()
    ensures forall d: Desk, e, ctx :: Extends(d, Inform(d, e, ctx))
  {
    hide Inform, Recorded;
    forall d: Desk, e, ctx ensures Extends(d, Inform(d, e, ctx)) {
      if Recorded(d) {
        InformKeepsRecorded(d, e, ctx);
      }
    }
  }

  lemma EventsExtend(d: Desk, taken: set<RotorEvent>)
    ensures Extends(d, HandleEvents(d, taken))
  {
    hide S.After, S.Accepts, S.Authorized, Inform;
    InformExtends();
  }

  lemma CommandsExtend(d: Desk, permitted: bool, duration: uint32, now: uint32, outcome: ProbeOutcome)
    ensures Extends(d, Probe(d, permitted, duration, now, outcome))
    ensures Extends(d, FinishRecovery(d))
  {
    hide S.After, S.Accepts, S.Authorized, Inform;
    InformExtends();
  }

  lemma GrantExtends(d: Desk, m: Mode, safe: bool, queued: bool)
    ensures Motor(m) in d.starts ==> Extends(d, Grant(d, m, safe))
    ensures Extends(d, Requested(d, queued))
  {
    hide S.After, S.Accepts, S.Authorized, Inform, RequestEvent;
    InformExtends();
  }

  lemma RemoteExtends(d: Desk, p: Poll, outcome: RemoteOutcome)
    ensures Extends(d, Remote(d, p, outcome)) && Extends(d, CheckRemote(d))
  {
    hide S.After, S.Accepts, S.Authorized, Inform, EndsTest;
    InformExtends();
  }

  lemma FaultsExtend(d: Desk, ready: bool, motionWasActive: bool)
    ensures Extends(d, FailDrive(d)) && Extends(d, FailStopped(d)) && Extends(d, Readiness(d, ready, motionWasActive))
  {
    hide S.After, S.Accepts, S.Authorized, Inform;
    InformExtends();
  }

  /** Every step tells the supervisor what it does with it, and forgets nothing. */
  lemma StepExtends(d: Drive, s: Step)
    requires Enabled(d, s)
    ensures Extends(d.desk, Apply(d, s).desk)
  {
    hide S.After, CallbackStep, HandleEvents, Probe, FinishRecovery, Grant, GrantsStart, Requested, Remote, CheckRemote;
    hide FailDrive, FailStopped, Readiness, ReadinessForcesFault;
    match s
    case HandleTaken => EventsExtend(d.desk, d.taken);
    case ProbeCommand(permitted, duration, now, outcome) =>
      CommandsExtend(d.desk, permitted, duration, now, outcome);
    case Recover(_) => CommandsExtend(d.desk, true, 0, 0, ProbeRefused);
    case GrantStart(safe) => GrantExtends(d.desk, d.phase.mode, safe, true);
    case QueueStart(valid) =>
      GrantExtends(d.desk, d.phase.mode, true, StartAccepted(d.rotor, RequestStart(d.phase.mode, valid)));
    case ServeRemote(p, outcome) => RemoteExtends(d.desk, p, outcome);
    case VerifyRemote(_) => RemoteExtends(d.desk, Poll(0, true, true, true, true), RemoteDone);
    case SampleAdc(_) => FaultsExtend(d.desk, true, true);
    case WatchLoop(_) => FaultsExtend(d.desk, true, true);
    case CheckReadiness(_, ready, motionWasActive) => FaultsExtend(d.desk, ready, motionWasActive);
    case _ =>
  }

  /** The supervisor's status is the outcome of exactly the events the run told it. */
  lemma {:induction false} StatusIsHistory(run: seq<Drive>, steps: seq<Step>, n: nat)
    requires DriveRun(run, steps) && n <= |steps|
    ensures S.After(run[n].desk.told) == run[n].desk.sup && BOOTING <= run[n].desk.told
  {
    hide S.After, Enabled, Apply;
    if n == 0 {
      BootIsRecorded();
    } else {
      StatusIsHistory(run, steps, n - 1);
      assert Enabled(run[n - 1], steps[n - 1]);
      StepExtends(run[n - 1], steps[n - 1]);
    }
  }

  lemma BootIsRecorded()
    ensures S.After(BOOTING) == BOOT.desk.sup
  {
    assert BOOTING[..0] == [];
    assert S.After([]) == S.INITIAL;
  }

  /**
   A live cascade goes back to a safe request for it, granted in READY, with no
   fault, readiness loss or release told since.
   */
  lemma LiveHasGrant(run: seq<Drive>, steps: seq<Step>, n: nat) returns (c: nat)
    requires DriveRun(run, steps) && AllTimely(run, steps) && n <= |steps|
    requires run[n].rotor.live.Live?
    ensures S.HeldSince(run[n].desk.told, c)
    ensures run[n].desk.told[c].event == RequestEvent(run[n].rotor.live.mode)
  {
    hide Enabled, Apply, Timely, S.HeldSince, S.After;
    StatusIsHistory(run, steps, n);
    TimelyRunIsGood(run, steps, n);
    var h, m := run[n].desk.told, run[n].rotor.live.mode;
    LiveIsAuthorized(run[n]);
    c := S.AuthorizedHasGrant(h);
    S.HeldGrantAuthorizes(h, c);
    GrantedIs(h, c, m);
  }

  lemma LiveIsAuthorized(d: Drive)
    requires Good(d) && d.rotor.live.Live?
    ensures d.desk.sup == AuthorityFor(d.rotor.live.mode) && S.Authorized(d.desk.sup)
  {}

  lemma GrantedIs(h: seq<S.Input>, c: nat, m: Mode)
    requires S.HeldSince(h, c) && S.Granted(h[c].event) == AuthorityFor(m)
    ensures h[c].event == RequestEvent(m)
  {
    hide S.After;
  }

  /**
   Once the supervisor has been in FAULT, a cascade is live again only after a
   safe acknowledgement, a safe confirmation of readiness and a new request.
   */
  lemma LiveAfterFault(run: seq<Drive>, steps: seq<Step>, n: nat, k: nat) returns (a: nat, b: nat, c: nat)
    requires DriveRun(run, steps) && AllTimely(run, steps) && n <= |steps|
    requires run[n].rotor.live.Live?
    requires k <= |run[n].desk.told| && S.After(run[n].desk.told[..k]).state == S.Fault
    ensures
      var h := run[n].desk.told;
      && k <= a < b < c < |h|
      && S.SafeAcknowledgement(h[a]) && S.SafeConfirmation(h[b]) && S.SafeRequest(h[c])
      && S.After(h[..a]).state == S.Fault && S.After(h[..b]).state == S.Diagnostic
      && S.HeldSince(h, c)
  {
    hide Enabled, Apply, Timely, S.HeldSince, S.After;
    StatusIsHistory(run, steps, n);
    TimelyRunIsGood(run, steps, n);
    LiveIsAuthorized(run[n]);
    a, b, c := S.RecoveryIsComplete(run[n].desk.told, k);
  }
}
