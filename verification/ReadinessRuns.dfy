/**
 Readiness over whole runs of the drive: after every due readiness turn the
 supervisor's status agrees with the prerequisites of that turn.
 */
module ReadinessRuns {
  import opened Foreground
  import opened Drive
  import opened DriveRuns
  import opened MailboxRuns
  import R = RotorRuntime
  import S = Supervisor

  /** The prerequisites of motion that the readiness turn found. */
  predicate Prerequisites(d: Drive, s: Step)
    requires s.CheckReadiness?
  {
    d.desk.bridgeReady && s.ready
  }

  lemma ReadinessApplied(d: Drive, s: Step)
    requires Enabled(d, s) && s.CheckReadiness? && s.due
    ensures Apply(d, s).desk == Readiness(d.desk, s.ready, s.motionWasActive)
  {
    hide Readiness, ReadinessForcesFault;
  }

  /**
   At the top of the loop after a due readiness turn: the supervisor is READY
   or has given out authority only if the prerequisites held, it is not left in
   DIAGNOSTIC if they did, a loss in READY without motion leads to DIAGNOSTIC,
   and a loss under authority to FAULT with nothing live and nothing pending.
   */
  lemma ReadinessIsCurrent(run: seq<Drive>, steps: seq<Step>, n: nat)
    requires DriveRun(run, steps) && n < |steps| && steps[n].CheckReadiness? && steps[n].due
    ensures run[n + 1].phase == Top
    ensures run[n + 1].desk.sup.state in {S.Ready, S.Align, S.Run} ==> Prerequisites(run[n], steps[n])
    ensures Prerequisites(run[n], steps[n]) ==> run[n + 1].desk.sup.state != S.Diagnostic
    ensures !Prerequisites(run[n], steps[n]) && run[n].desk.sup.state == S.Ready ==>
              run[n + 1].desk.sup.state == (if steps[n].motionWasActive then S.Fault else S.Diagnostic)
    ensures !Prerequisites(run[n], steps[n]) && run[n].desk.sup.state in {S.Align, S.Run} ==>
              && run[n + 1].desk.sup == S.FAULTED
              && run[n + 1].desk.starts == {} && run[n + 1].desk.stops == {} && !run[n + 1].desk.remoteActive
              && run[n + 1].rotor.live == R.Idle && run[n + 1].rotor.requests == {}
  {
    hide Enabled, Apply, Readiness;
    BoxesAlwaysHeld(run, steps, n);
    var d, s := run[n], steps[n];
    assert Enabled(d, s) && run[n + 1] == Apply(d, s);
    ReadinessApplied(d, s);
    ReadinessMeaning(d.desk, s.ready, s.motionWasActive);
    ReadinessEndsMotion(d, s);
  }

  lemma ReadinessEndsMotion(d: Drive, s: Step)
    requires Enabled(d, s) && s.CheckReadiness? && s.due && S.InvariantsHold(d.desk.sup)
    ensures Apply(d, s).phase == Top
    ensures !Prerequisites(d, s) && d.desk.sup.state in {S.Align, S.Run} ==>
              Apply(d, s).rotor.live == R.Idle && Apply(d, s).rotor.requests == {}
  {
    hide Readiness;
  }
}
