/**
 Whole runs of the drive: every interleaving of foreground blocks and SPI
 callbacks from the entry of the loop.
 */
module DriveRuns {
  import opened Foreground
  import opened RotorRuntime
  import opened Drive
  import S = Supervisor

  // ---- runs ----

  /** The states a sequence of steps goes through. */
  ghost predicate Run(run: seq<Drive>, steps: seq<Step>) {
    && |run| == |steps| + 1
    && forall i {:trigger steps[i]} :: 0 <= i < |steps| ==>
                                         Enabled(run[i], steps[i]) && run[i + 1] == Apply(run[i], steps[i])
  }

  /** A run from the entry of the loop. */
  ghost predicate DriveRun(run: seq<Drive>, steps: seq<Step>) {
    Run(run, steps) && run[0] == BOOT
  }

  /** The run respects the timing of `Timely`. */
  ghost predicate AllTimely(run: seq<Drive>, steps: seq<Step>)
    requires |run| == |steps| + 1
  {
    forall i :: 0 <= i < |steps| ==> Timely(run[i], steps[i])
  }

  /** Some timely run leads from one state to the other. */
  ghost predicate Reach(d: Drive, e: Drive) {
    exists run, steps :: Run(run, steps) && AllTimely(run, steps) && run[0] == d && run[|steps|] == e
  }

  lemma RunGrows(run: seq<Drive>, steps: seq<Step>, s: Step, next: Drive)
    requires Run(run, steps) && Enabled(run[|steps|], s) && next == Apply(run[|steps|], s)
    ensures Run(run + [next], steps + [s])
    ensures AllTimely(run, steps) && Timely(run[|steps|], s) ==> AllTimely(run + [next], steps + [s])
  {
    hide Enabled, Apply, Timely;
    var r, t := run + [next], steps + [s];
    forall i | 0 <= i < |t| ensures Enabled(r[i], t[i]) && r[i + 1] == Apply(r[i], t[i]) {
      if i < |steps| {
        assert t[i] == steps[i] && Enabled(run[i], steps[i]);
      }
    }
  }

  lemma ReachSelf(d: Drive)
    ensures Reach(d, d)
  {
    assert Run([d], []);
  }

  lemma ReachStep(d: Drive, e: Drive, s: Step)
    requires Reach(d, e) && Enabled(e, s) && Timely(e, s)
    ensures Reach(d, Apply(e, s))
  {
    hide Enabled, Timely, Apply;
    var run, steps :| Run(run, steps) && AllTimely(run, steps) && run[0] == d && run[|steps|] == e;
    RunGrows(run, steps, s, Apply(e, s));
    assert (run + [Apply(e, s)])[|steps + [s]|] == Apply(e, s) && (run + [Apply(e, s)])[0] == d;
  }

  // ---- authority agreement ----

  lemma {:induction false} RunKeepsGood(run: seq<Drive>, steps: seq<Step>, n: nat)
    requires Run(run, steps) && AllTimely(run, steps) && Good(run[0]) && n <= |steps|
    ensures Good(run[n])
  {
    hide Good, Enabled, Apply, Timely;
    if n > 0 {
      RunKeepsGood(run, steps, n - 1);
      assert Timely(run[n - 1], steps[n - 1]) && Enabled(run[n - 1], steps[n - 1]);
      StepKeepsGood(run[n - 1], steps[n - 1]);
    }
  }

  /** Every state of every timely run from the entry of the loop. */
  lemma TimelyRunIsGood(run: seq<Drive>, steps: seq<Step>, n: nat)
    requires DriveRun(run, steps) && AllTimely(run, steps) && n <= |steps|
    ensures Good(run[n])
  {
    hide Good, Enabled, Apply, Timely;
    BootIsGood();
    RunKeepsGood(run, steps, n);
  }

  lemma GoodReaches(d: Drive, e: Drive)
    requires Good(d) && Reach(d, e)
    ensures Good(e)
  {
    hide Good, Enabled, Apply, Timely;
    var run, steps :| Run(run, steps) && AllTimely(run, steps) && run[0] == d && run[|steps|] == e;
    RunKeepsGood(run, steps, |steps|);
  }

  lemma ReachedIsGood(e: Drive)
    requires Reach(BOOT, e)
    ensures Good(e)
  {
    BootIsGood();
    GoodReaches(BOOT, e);
  }

  /**
   In every reachable state a live alignment runs under ALIGN with motion
   authority and any other live cascade under RUN with motion authority; a
   queued start has its authority too, and no internal-invariant panic that
   these blocks can raise is ever raised.
   */
  lemma AuthorityAgreement(e: Drive)
    requires Reach(BOOT, e)
    ensures e.rotor.live == Live(Alignment) ==> e.desk.sup == S.Status(S.Align, S.MotionAuthority)
    ensures e.rotor.live.Live? && e.rotor.live.mode != Alignment ==>
              e.desk.sup == S.Status(S.Run, S.MotionAuthority)
    ensures forall m :: Start(m) in e.rotor.requests ==> e.desk.sup == AuthorityFor(m) && e.rotor.live == Idle
    ensures e.desk.remoteActive ==> e.desk.sup == S.Status(S.Run, S.DiagnosticAuthority)
    ensures e.desk.halt != InternalInvariant
  {
    ReachedIsGood(e);
    forall m | Start(m) in e.rotor.requests ensures e.rotor.live == Idle {
      EveryStartIsListed(m);
    }
  }

  // ---- a pass in which nothing happens ----

  /** How many benign steps lead from a phase to the top of the loop. */
  function Remaining(p: Phase): int {
    match p
    case Commands => 13
    case Buttons => 12
    case AlignmentStop => 11
    case Granting(m) =>
      (match m case Alignment => 10 case Torque => 8 case Velocity => 7 case Position => 6)
    case MotionStop => 9
    case RemoteTurn => 5
    case RemoteCheck => 4
    case AdcSample => 3
    case AdcLoop => 2
    case ReadinessTurn => 1
    case Top => 0
    case _ => -1
  }

  function Benign(p: Phase): Step {
    match p
    case Commands => EndCommands(false)
    case Buttons => Press({})
    case AlignmentStop => ServeAlignment
    case Granting(_) => GrantStart(true)
    case MotionStop => ServeMotion
    case RemoteTurn => ServeRemote(Poll(0, false, false, true, true), RemoteDone)
    case RemoteCheck => VerifyRemote(false)
    case AdcSample => SampleAdc(NoSample)
    case AdcLoop => WatchLoop(LoopFine)
    case _ => CheckReadiness(false, true, false)
  }

  /** A desk with no start waiting and no remote test running. */
  predicate Idling(d: Desk) {
    d.starts == {} && !d.remoteActive && d.halt == Running
  }

  /** What a benign step leaves alone; it may still forward a pending stop. */
  predicate Undisturbed(d: Drive, e: Drive) {
    && e.rotor.live == d.rotor.live && e.rotor.events == d.rotor.events
    && e.rotor.requests in {d.rotor.requests, {Stop}}
    && e.desk.sup == d.desk.sup && e.desk.bridgeReady == d.desk.bridgeReady
    && Idling(e.desk)
  }

  lemma BenignStep(d: Drive)
    requires Idling(d.desk) && Remaining(d.phase) > 0
    ensures
      var s := Benign(d.phase);
      && Enabled(d, s) && Timely(d, s)
      && Undisturbed(d, Apply(d, s))
      && Remaining(Apply(d, s).phase) == Remaining(d.phase) - 1
  {}

  /** The stops that the pass has served up to this phase. */
  predicate Served(d: Drive) {
    && (Remaining(d.phase) <= 10 ==> Motor(Alignment) !in d.desk.stops)
    && (Remaining(d.phase) <= 8 ==> d.desk.stops !! MOTIONS)
    && (Remaining(d.phase) <= 4 ==> RemoteTest !in d.desk.stops)
  }

  lemma BenignServes(d: Drive)
    requires Idling(d.desk) && Remaining(d.phase) > 0 && Served(d) && Enabled(d, Benign(d.phase))
    ensures Served(Apply(d, Benign(d.phase)))
  {}

  lemma AllServed(d: Drive)
    requires Served(d) && d.phase == Top
    ensures d.desk.stops == {}
  {
    forall x ensures x !in d.desk.stops {
      assert x.RemoteTest? || x.mode.Alignment? || x.mode.Torque? || x.mode.Velocity? || x.mode.Position?;
    }
  }

  /** The foreground can always walk on to a later point of the pass. */
  lemma {:induction false} Pass(origin: Drive, d: Drive, remaining: int) returns (e: Drive)
    requires Reach(origin, d) && Idling(d.desk) && 0 <= remaining <= Remaining(d.phase)
    ensures Reach(origin, e) && Undisturbed(d, e) && Remaining(e.phase) == remaining
    ensures Served(d) ==> Served(e)
    decreases Remaining(d.phase)
  {
    hide Reach, Enabled, Timely, Apply, Benign, Remaining, Served;
    if Remaining(d.phase) == remaining {
      e := d;
    } else {
      BenignStep(d);
      if Served(d) {
        BenignServes(d);
      }
      var next := Apply(d, Benign(d.phase));
      ReachStep(origin, d, Benign(d.phase));
      e := Pass(origin, next, remaining);
    }
  }

  // ---- what the timing is needed for ----

  /** A granted start that the runtime would accept now. */
  predicate AboutToQueue(d: Drive, m: Mode) {
    d.desk.halt == Running && d.phase == Requesting(m) && StartAccepted(d.rotor, RequestStart(m, true))
  }

  function Queued(d: Drive, m: Mode): Drive
    requires AboutToQueue(d, m)
  {
    Apply(d, QueueStart(true))
  }

  /** The state after a start was queued over an unread release. */
  lemma QueuedOverRelease(d: Drive, m: Mode)
    requires Good(d) && AboutToQueue(d, m) && Released in d.rotor.events
    ensures
      var e := Queued(d, m);
      && e.rotor == RotorView(Idle, {Start(m)}, {Released})
      && e.desk.sup == AuthorityFor(m) && Idling(e.desk) && Remaining(e.phase) > 0
  {
    assert forall x :: x in d.desk.starts ==> InWindow(x, d.phase);
    assert d.rotor.events == {Released};
  }

  /** The callback that runs the queued start. */
  lemma ComesAlive(d: Drive, m: Mode)
    requires d.desk.halt == Running && d.rotor == RotorView(Idle, {Start(m)}, {Released})
    ensures Enabled(d, Interrupt(true, RotorView(Live(m), {}, {Released})))
  {
    EveryStartIsListed(m);
    assert Start(m) in d.rotor.requests;
  }

  /** Housekeeping reads the stale release and gives up the authority of a live cascade. */
  lemma StaleReleaseIsRead(d: Drive, m: Mode)
    requires d.phase == Top && Idling(d.desk) && d.desk.sup == AuthorityFor(m)
    requires d.rotor.live == Live(m) && d.rotor.events == {Released}
    ensures
      && Enabled(d, Take(true)) && Timely(d, Take(true))
      && var e := Apply(d, Take(true));
         Enabled(e, HandleTaken) && Timely(e, HandleTaken) && !Agreement(Apply(e, HandleTaken))
  {}

  lemma TopIsZero(p: Phase)
    ensures Remaining(p) == 0 <==> p == Top
  {}

  /** From a start queued over an unread release the drive can lose agreement. */
  lemma LosesAgreement(d: Drive, m: Mode) returns (e: Drive)
    requires Good(d) && AboutToQueue(d, m) && Released in d.rotor.events
    ensures Reach(Queued(d, m), e) && !Agreement(e)
  {
    hide Good, Apply, Enabled, Timely, Reach, Remaining, Agreement, Queued, AuthorityFor;
    QueuedOverRelease(d, m);
    var origin := Queued(d, m);
    ReachSelf(origin);
    ComesAlive(origin, m);
    var alive := AliveState(origin, m);
    e := Pass(origin, alive, 0);
    TopIsZero(e.phase);
    StaleReleaseIsRead(e, m);
    ReachStep(origin, e, Take(true));
    e := Apply(e, Take(true));
    ReachStep(origin, e, HandleTaken);
    e := Apply(e, HandleTaken);
  }

  lemma AliveState(origin: Drive, m: Mode) returns (e: Drive)
    requires Enabled(origin, Interrupt(true, RotorView(Live(m), {}, {Released})))
    ensures Reach(origin, e)
    ensures e == origin.(rotor := RotorView(Live(m), {}, {Released}))
  {
    hide Reach;
    ReachSelf(origin);
    e := Apply(origin, Interrupt(true, RotorView(Live(m), {}, {Released})));
    ReachStep(origin, origin, Interrupt(true, RotorView(Live(m), {}, {Released})));
  }

  /**
   At the moment a granted start enters the mailbox, every continuation keeps
   agreement exactly when no release is unread.
   */
  lemma AgreementIff(d: Drive, m: Mode)
    requires Good(d) && AboutToQueue(d, m)
    ensures (forall e :: Reach(Queued(d, m), e) ==> Agreement(e)) <==> Released !in d.rotor.events
  {
    hide Reach, Apply, Enabled;
    if Released in d.rotor.events {
      var e := LosesAgreement(d, m);
    } else {
      QueuedIsGood(d, m);
      forall e | Reach(Queued(d, m), e) ensures Agreement(e) {
        GoodReaches(Queued(d, m), e);
      }
    }
  }

  lemma QueuedIsGood(d: Drive, m: Mode)
    requires Good(d) && AboutToQueue(d, m) && Released !in d.rotor.events
    ensures Good(Queued(d, m))
  {
    hide Good, Apply;
    StepKeepsGood(d, QueueStart(true));
  }

  // ---- such a moment can be reached ----

  const READY_STATUS: S.Status := S.Status(S.Ready, S.NoAuthority)

  lemma FirstCommands() returns (e: Drive)
    ensures Reach(BOOT, e) && e == BOOT.(phase := Commands)
  {
    hide Reach;
    ReachSelf(BOOT);
    ReachStep(BOOT, BOOT, Take(false));
    e := Apply(BOOT, Take(false));
    ReachStep(BOOT, e, HandleTaken);
    e := Apply(e, HandleTaken);
  }

  /** The first pass calibrates the bridge and confirms readiness. */
  lemma ReachReady() returns (e: Drive)
    ensures Reach(BOOT, e) && e.phase == Top && Idling(e.desk)
    ensures e.desk.sup == READY_STATUS && e.desk.bridgeReady && e.desk.stops == {}
    ensures e.rotor.live == Idle && e.rotor.events == {}
  {
    hide Reach, Apply;
    e := FirstCommands();
    assert Served(e);
    e := Pass(BOOT, e, 3);
    e := Confirm(e);
  }

  lemma Confirm(d: Drive) returns (e: Drive)
    requires Reach(BOOT, d) && Remaining(d.phase) == 3 && Idling(d.desk) && Served(d)
    requires d.desk.sup == S.Status(S.Diagnostic, S.NoAuthority)
    ensures Reach(BOOT, e) && e.phase == Top && Idling(e.desk) && e.rotor == d.rotor
    ensures e.desk.sup == READY_STATUS && e.desk.bridgeReady && e.desk.stops == {}
  {
    hide Reach, Enabled, Apply, Timely, Served, Remaining;
    CalibrationSteps(d);
    ReachStep(BOOT, d, SampleAdc(Calibrated));
    e := Apply(d, SampleAdc(Calibrated));
    ReachStep(BOOT, e, WatchLoop(LoopFine));
    e := Apply(e, WatchLoop(LoopFine));
    ConfirmationStep(e);
    ReachStep(BOOT, e, CheckReadiness(true, true, false));
    e := Apply(e, CheckReadiness(true, true, false));
    StillServed(d, e);
    AllServed(e);
  }

  lemma CalibrationSteps(d: Drive)
    requires Remaining(d.phase) == 3 && d.desk.halt == Running
    ensures d.phase == AdcSample
    ensures Enabled(d, SampleAdc(Calibrated)) && Timely(d, SampleAdc(Calibrated))
    ensures
      var e := Apply(d, SampleAdc(Calibrated));
      && e == d.(desk := d.desk.(bridgeReady := true), phase := AdcLoop)
      && Enabled(e, WatchLoop(LoopFine)) && Timely(e, WatchLoop(LoopFine))
      && Apply(e, WatchLoop(LoopFine)) == e.(phase := ReadinessTurn)
  {
    assert d.phase == AdcSample;
  }

  lemma ConfirmationStep(d: Drive)
    requires d.phase == ReadinessTurn && d.desk.halt == Running && d.desk.bridgeReady
    requires d.desk.sup == S.Status(S.Diagnostic, S.NoAuthority)
    ensures
      var s := CheckReadiness(true, true, false);
      && Enabled(d, s) && Timely(d, s)
      && var e := Apply(d, s);
         && e.phase == Top && e.rotor == d.rotor && e.desk.sup == READY_STATUS && e.desk.halt == Running
         && e.desk.starts == d.desk.starts && e.desk.stops == d.desk.stops
         && e.desk.bridgeReady && e.desk.remoteActive == d.desk.remoteActive
  {}

  lemma StillServed(d: Drive, e: Drive)
    requires Served(d) && Remaining(d.phase) == 3 && e.desk.stops == d.desk.stops && e.phase == Top
    ensures Served(e)
  {}

  /** A pass that does not take the events of the runtime. */
  lemma EnterCommands(d: Drive) returns (e: Drive)
    requires Reach(BOOT, d) && d.phase == Top && d.desk.halt == Running
    ensures Reach(BOOT, e) && e == d.(taken := {}, phase := Commands)
  {
    hide Reach;
    ReachStep(BOOT, d, Take(false));
    e := Apply(d, Take(false));
    ReachStep(BOOT, e, HandleTaken);
    e := Apply(e, HandleTaken);
  }

  /** A STOP command in READY reaches the runtime, whose callback answers with a release. */
  lemma ReleaseWhileReady(d: Drive) returns (e: Drive)
    requires Reach(BOOT, d) && d.phase == Commands && Idling(d.desk) && d.desk.sup == READY_STATUS
    requires d.rotor.live == Idle && d.rotor.events == {}
    ensures Reach(BOOT, e) && e.phase == Granting(Alignment) && Idling(e.desk) && Served(e)
    ensures e.desk.sup == READY_STATUS && e.desk.bridgeReady == d.desk.bridgeReady
    ensures e.rotor == RotorView(Idle, {}, {Released})
  {
    hide Reach;
    ReachStep(BOOT, d, StopCommand);
    e := Apply(d, StopCommand);
    ReachStep(BOOT, e, EndCommands(false));
    e := Apply(e, EndCommands(false));
    ReachStep(BOOT, e, Press({}));
    e := Apply(e, Press({}));
    ReachStep(BOOT, e, ServeAlignment);
    e := Apply(e, ServeAlignment);
    assert Stop in e.rotor.requests;
    assert Idling(e.desk) && Served(e);
    ReachStep(BOOT, e, Interrupt(true, RotorView(Idle, {}, {Released})));
    e := Apply(e, Interrupt(true, RotorView(Idle, {}, {Released})));
  }

  /** The next pass accepts and grants a start while the release is unread. */
  lemma GrantOverRelease(d: Drive) returns (e: Drive)
    requires Reach(BOOT, d) && d.phase == Commands && Idling(d.desk) && d.desk.sup == READY_STATUS
    requires d.desk.bridgeReady && d.desk.stops == {}
    requires d.rotor == RotorView(Idle, {}, {Released})
    ensures Reach(BOOT, e) && AboutToQueue(e, Alignment) && Released in e.rotor.events
  {
    hide Reach;
    ReachStep(BOOT, d, StartCommand(Order(Motor(Alignment), 0, 0), true));
    e := Apply(d, StartCommand(Order(Motor(Alignment), 0, 0), true));
    ReachStep(BOOT, e, EndCommands(false));
    e := Apply(e, EndCommands(false));
    ReachStep(BOOT, e, Press({}));
    e := Apply(e, Press({}));
    ReachStep(BOOT, e, ServeAlignment);
    e := Apply(e, ServeAlignment);
    ReachStep(BOOT, e, GrantStart(true));
    e := Apply(e, GrantStart(true));
  }

  /** Whatever is queued over an idle runtime beside a release, a callback can clear it. */
  lemma Drain(d: Drive) returns (e: Drive)
    requires Reach(BOOT, d) && d.desk.halt == Running
    requires d.rotor.live == Idle && d.rotor.events == {Released} && d.rotor.requests in {{}, {Stop}}
    ensures Reach(BOOT, e) && e == d.(rotor := RotorView(Idle, {}, {Released}))
  {
    hide Reach;
    ReachStep(BOOT, d, Interrupt(true, RotorView(Idle, {}, {Released})));
    e := Apply(d, Interrupt(true, RotorView(Idle, {}, {Released})));
  }

  /**
   The drive can reach the moment at which a granted start would be queued over
   an unread release; queueing it there can leave a live alignment without
   authority.
   */
  lemma AgreementCanFail() returns (d: Drive, e: Drive)
    ensures Reach(BOOT, d) && AboutToQueue(d, Alignment) && Reach(Queued(d, Alignment), e)
    ensures !Agreement(e)
  {
    hide Reach, Agreement, Good, AboutToQueue;
    d := ReachReady();
    d := EnterCommands(d);
    d := ReleaseWhileReady(d);
    d := Pass(BOOT, d, 0);
    TopIsZero(d.phase);
    AllServed(d);
    d := Drain(d);
    d := EnterCommands(d);
    d := GrantOverRelease(d);
    ReachedIsGood(d);
    e := LosesAgreement(d, Alignment);
  }
}
