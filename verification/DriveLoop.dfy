/**
 The endless loop of firmware/src/main.c over the objects themselves: the blocks
 of a pass in source order, with any number of SPI callbacks between any two of
 them. The loop keeps a record of every state it goes through, which is a run of
 the drive, so that what is proved of runs holds of the objects.
 */
module DriveLoop {
  import opened Foreground
  import opened RotorRuntime
  import opened Drive
  import opened DriveRuns
  import opened MailboxRuns
  import opened DriveHistory
  import opened PassOrder
  import opened Words
  import S = Supervisor

  /** Any number. */
  method Some() returns (n: nat)
  {
    var k: int := *;
    n := if k < 0 then 0 else k;
  }

  /** Any answer of the hardware or of a caller. */
  method Either() returns (b: bool)
  {
    b := *;
  }

  method AnyWord() returns (w: uint32)
  {
    var k: int := *;
    w := Wrap(k);
  }

  method AnyPoll() returns (p: Poll)
  {
    var now := AnyWord();
    var due := Either();
    var ended := Either();
    var sampled := Either();
    var encoderReady := Either();
    p := Poll(now, due, ended, sampled, encoderReady);
  }

  // ---- steps of the drive, one by one ----

  lemma TakeStep(d: Drive, due: bool)
    requires d.phase == Top && d.desk.halt == Running
    ensures Enabled(d, Take(due))
    ensures Apply(d, Take(due)) ==
            if due then d.(rotor := d.rotor.(events := {}), taken := d.rotor.events, phase := EventsTaken)
            else d.(taken := {}, phase := EventsTaken)
  {}

  lemma StartStep(d: Drive, order: Order, permitted: bool)
    requires d.phase == Commands && d.desk.halt == Running
    ensures Enabled(d, StartCommand(order, permitted))
    ensures Apply(d, StartCommand(order, permitted)) == d.(desk := AcceptStart(d.desk, order, permitted))
  {
    hide AcceptStart;
  }

  lemma ClearSteps(d: Drive, recovered: bool)
    requires d.desk.halt == Running
    ensures d.phase == Commands ==>
              && Enabled(d, ClearFaultsCommand)
              && Apply(d, ClearFaultsCommand) == d.(desk := BeginRecovery(d.desk), phase := Recovering)
    ensures d.phase == Recovering ==>
              && Enabled(d, Recover(recovered))
              && Apply(d, Recover(recovered)) ==
                 if recovered then d.(rotor := RotorView(Idle, {}, {}), desk := FinishRecovery(d.desk), phase := Commands)
                 else d.(phase := Commands)
  {
    hide BeginRecovery, FinishRecovery;
  }

  lemma EndCommandsStep(d: Drive, linkLost: bool)
    requires d.phase == Commands && d.desk.halt == Running
    ensures Enabled(d, EndCommands(linkLost))
    ensures Apply(d, EndCommands(linkLost)) ==
            d.(desk := RaiseStops(d.desk, if linkLost then MAILBOXES else {}), phase := Buttons)
  {}

  lemma GrantStep(d: Drive, m: Mode, safe: bool)
    requires d.phase == Granting(m) && d.desk.halt == Running
    ensures Enabled(d, GrantStart(safe))
    ensures Apply(d, GrantStart(safe)) ==
            if Motor(m) !in d.desk.starts then d.(phase := AfterGrant(m))
            else d.(desk := Grant(d.desk, m, safe),
                    phase := if GrantsStart(d.desk, m, safe) then Requesting(m) else AfterGrant(m))
  {
    hide Grant, GrantsStart;
  }

  lemma SampleStep(d: Drive, outcome: SampleOutcome)
    requires d.phase == AdcSample && d.desk.halt == Running
    ensures Enabled(d, SampleAdc(outcome))
    ensures Apply(d, SampleAdc(outcome)) ==
            match outcome
            case NoSample => d.(phase := AdcLoop)
            case Calibrated => d.(desk := d.desk.(bridgeReady := true), phase := AdcLoop)
            case SampleError => d.(rotor := Faulting(d.rotor), desk := FailDrive(d.desk), phase := AdcLoop)
  {
    hide FailDrive;
  }

  lemma WatchStep(d: Drive, outcome: LoopOutcome)
    requires d.phase == AdcLoop && d.desk.halt == Running
    ensures Enabled(d, WatchLoop(outcome))
    ensures Apply(d, WatchLoop(outcome)) ==
            match outcome
            case LoopFine => d.(phase := ReadinessTurn)
            case LoopFault => d.(rotor := Faulting(d.rotor), desk := FailDrive(d.desk), phase := ReadinessTurn)
            case LoopStopped => d.(rotor := Faulting(d.rotor), desk := FailStopped(d.desk), phase := ReadinessTurn)
  {
    hide FailDrive, FailStopped;
  }

  lemma ReadinessStep(d: Drive, due: bool, ready: bool, motionWasActive: bool)
    requires d.phase == ReadinessTurn && d.desk.halt == Running
    ensures Enabled(d, CheckReadiness(due, ready, motionWasActive))
    ensures Apply(d, CheckReadiness(due, ready, motionWasActive)) ==
            if !due then d.(phase := Top)
            else d.(rotor := if ReadinessForcesFault(d.desk, ready) then Faulting(d.rotor) else d.rotor,
                    desk := Readiness(d.desk, ready, motionWasActive), phase := Top)
  {
    hide Readiness, ReadinessForcesFault;
  }

  lemma RemoteStep(d: Drive, p: Poll, outcome: RemoteOutcome)
    requires d.phase == RemoteTurn && d.desk.halt == Running
    ensures Enabled(d, ServeRemote(p, outcome))
    ensures Apply(d, ServeRemote(p, outcome)) == d.(desk := Remote(d.desk, p, outcome), phase := RemoteCheck)
  {
    hide Remote;
  }

  lemma PassesGrow(steps: seq<Step>, s: Step)
    ensures Passes(steps + [s], |steps| + 1) == Passes(steps, |steps|) + Completes(s)
  {
    SamePasses(steps, s, |steps|);
  }

  lemma {:induction false} SamePasses(steps: seq<Step>, s: Step, n: nat)
    requires n <= |steps|
    ensures Passes(steps + [s], n) == Passes(steps, n)
  {
    if n > 0 {
      SamePasses(steps, s, n - 1);
    }
  }

  class DriveLoop {
    const loop: ForegroundLoop
    var taken: set<RotorEvent>
    ghost var phase: Phase
    ghost var trace: seq<Drive>
    ghost var steps: seq<Step>
    /** The passes completed. */
    ghost var passes: nat

    ghost function Here(): Drive
      reads this, loop, loop.supervisor, loop.runtime
    {
      Drive(loop.runtime.View(), loop.Now(), taken, phase)
    }

    /** The record is a run of the drive from its entry to where the objects are now. */
    ghost predicate Valid()
      reads this, loop, loop.supervisor, loop.runtime
    {
      && loop.Valid()
      && DriveRun(trace, steps)
      && trace[|steps|] == Here()
      && passes == Passes(steps, |steps|)
    }

    /** The loop is about to execute the given block. */
    ghost predicate At(p: Phase)
      reads this, loop, loop.supervisor, loop.runtime
    {
      Valid() && phase == p && loop.halt == Running
    }

    /** Entry of the loop: everything initialised, passive initialisation reported. */
    constructor ()
      ensures At(Top) && trace == [BOOT] && passes == 0
      ensures fresh(loop) && fresh(loop.supervisor) && fresh(loop.runtime)
    {
      var supervisor := new S.AppSupervisor();
      var _ := supervisor.HandleEvent(S.PassiveInitComplete, NO_CONTEXT);
      var runtime := new RotorControlRuntime();
      loop := new ForegroundLoop(supervisor, runtime);
      taken := {};
      phase, trace, steps, passes := Top, [BOOT], [], 0;
    }

    /** Extends the record by the step that led from its last state to here. */
    ghost method Record(s: Step)
      requires loop.Valid() && DriveRun(trace, steps) && passes == Passes(steps, |steps|)
      requires Enabled(trace[|steps|], s) && Here() == Apply(trace[|steps|], s)
      modifies this`trace, this`steps, this`passes
      ensures Valid() && old(trace) <= trace
      ensures passes == old(passes) + Completes(s)
    {
      hide Enabled, Apply;
      RunGrows(trace, steps, s, Here());
      PassesGrow(steps, s);
      trace, steps := trace + [Here()], steps + [s];
      passes := Passes(steps, |steps|);
    }

    /** Any number of SPI callbacks. */
    method Interrupts(ghost p: Phase)
      requires At(p)
      modifies this`trace, this`steps, this`passes, loop.runtime
      ensures At(p) && old(trace) <= trace && passes == old(passes)
    {
      hide DriveRun;
      var count := Some();
      for i := 0 to count
        invariant At(p) && old(trace) <= trace && passes == old(passes)
      {
        var sampleValid: bool := *;
        var w: World := *;
        loop.runtime.SpiCallback(sampleValid, w);
        Record(Interrupt(sampleValid, loop.runtime.View()));
      }
    }

    method TakePhase()
      requires At(Top)
      modifies this, loop.runtime
      ensures At(EventsTaken) && old(trace) <= trace && passes == old(passes)
    {
      hide DriveRun, Enabled, Apply;
      var due := Either();
      TakeStep(Here(), due);
      taken := {};
      if due {
        taken := loop.runtime.TakeEvents();
      }
      phase := EventsTaken;
      Record(Take(due));
    }

    method EventsPhase()
      requires At(EventsTaken)
      modifies this, loop, loop.supervisor
      ensures Valid() && old(trace) <= trace && passes == old(passes) && (loop.halt == Running ==> At(Commands))
    {
      hide DriveRun, HandleEvents;
      loop.EventsBlock(taken);
      taken := {};
      phase := Commands;
      Record(HandleTaken);
    }

    /** One command of the host. */
    method OneCommand()
      requires At(Commands)
      modifies this, loop, loop.supervisor, loop.runtime
      ensures Valid() && old(trace) <= trace && passes == old(passes) && phase == Commands
    {
      hide DriveRun;
      var kind := Some();
      if kind == 0 {
        StartOne();
      } else if kind == 1 {
        ProbeOne();
      } else if kind == 2 {
        loop.StopCommand();
        Record(StopCommand);
      } else if kind == 3 {
        ClearOne();
      }
    }

    method StartOne()
      requires At(Commands)
      modifies this`trace, this`steps, this`passes, loop
      ensures At(Commands) && old(trace) <= trace && passes == old(passes)
    {
      hide DriveRun, Enabled, Apply, AcceptStart;
      var box: Mailbox := *;
      var ramp := AnyWord();
      var hold := AnyWord();
      var order := Order(box, ramp, hold);
      var permitted := Either();
      StartStep(Here(), order, permitted);
      var _ := loop.StartCommand(order, permitted);
      Record(StartCommand(order, permitted));
    }

    method ProbeOne()
      requires At(Commands)
      modifies this`trace, this`steps, this`passes, loop, loop.supervisor
      ensures Valid() && old(trace) <= trace && passes == old(passes)
    {
      hide DriveRun, Probe;
      var permitted := Either();
      var duration := AnyWord();
      var now := AnyWord();
      var outcome: ProbeOutcome := *;
      var _ := loop.ProbeCommand(permitted, duration, now, outcome);
      Record(ProbeCommand(permitted, duration, now, outcome));
    }

    method ClearOne()
      requires At(Commands)
      modifies this, loop, loop.supervisor, loop.runtime
      ensures At(Commands) && old(trace) <= trace && passes == old(passes)
    {
      hide DriveRun, Valid, At;
      BeginClear();
      Interrupts(Recovering);
      FinishClear();
    }

    method BeginClear()
      requires At(Commands)
      modifies this, loop
      ensures At(Recovering) && old(trace) <= trace && passes == old(passes)
    {
      hide DriveRun, BeginRecovery, Enabled, Apply;
      ClearSteps(Here(), false);
      loop.BeginClearing();
      phase := Recovering;
      Record(ClearFaultsCommand);
    }

    method FinishClear()
      requires At(Recovering)
      modifies this, loop, loop.supervisor, loop.runtime
      ensures At(Commands) && old(trace) <= trace && passes == old(passes)
    {
      hide DriveRun, FinishRecovery, Enabled, Apply;
      var recovered := Either();
      ghost var before := Here();
      var resets := Either();
      recovered := loop.FinishClearing(recovered, resets);
      ClearSteps(before, recovered);
      phase := Commands;
      Record(Recover(recovered));
    }

    method CommandsPhase()
      requires At(Commands)
      modifies this, loop, loop.supervisor, loop.runtime
      ensures Valid() && old(trace) <= trace && passes == old(passes) && (loop.halt == Running ==> At(Buttons))
    {
      hide DriveRun, Enabled, Apply;
      var count := Some();
      for i := 0 to count
        invariant At(Commands) && old(trace) <= trace && passes == old(passes)
      {
        OneCommand();
        if loop.halt != Running {
          return;
        }
        Interrupts(Commands);
      }
      var linkLost := Either();
      EndCommandsStep(Here(), linkLost);
      loop.RaiseStopsBlock(if linkLost then MAILBOXES else {});
      phase := Buttons;
      Record(EndCommands(linkLost));
    }

    method ButtonsPhase()
      requires At(Buttons)
      modifies this, loop
      ensures At(AlignmentStop) && old(trace) <= trace && passes == old(passes)
    {
      hide DriveRun;
      var pressed: set<Mailbox> := *;
      pressed := pressed * MOTORS;
      loop.RaiseStopsBlock(pressed);
      phase := AlignmentStop;
      Record(Press(pressed));
    }

    method AlignmentStopPhase()
      requires At(AlignmentStop)
      modifies this, loop, loop.runtime
      ensures At(Granting(Alignment)) && old(trace) <= trace && passes == old(passes)
    {
      hide DriveRun;
      loop.AlignmentStopBlock();
      phase := Granting(Alignment);
      Record(ServeAlignment);
    }

    method MotionStopPhase()
      requires At(MotionStop)
      modifies this, loop, loop.runtime
      ensures At(Granting(Torque)) && old(trace) <= trace && passes == old(passes)
    {
      hide DriveRun;
      loop.MotionStopBlock();
      phase := Granting(Torque);
      Record(ServeMotion);
    }

    /** One of the four grant blocks: the supervisor is asked, then the runtime. */
    method StartPhase(m: Mode)
      requires At(Granting(m))
      modifies this, loop, loop.supervisor, loop.runtime
      ensures At(AfterGrant(m)) && old(trace) <= trace && passes == old(passes)
    {
      hide DriveRun, Valid, At, AfterGrant;
      var granted := GrantOne(m);
      if granted {
        Interrupts(Requesting(m));
        QueueOne(m);
      }
    }

    method GrantOne(m: Mode) returns (granted: bool)
      requires At(Granting(m))
      modifies this, loop, loop.supervisor
      ensures At(if granted then Requesting(m) else AfterGrant(m)) && old(trace) <= trace && passes == old(passes)
    {
      hide DriveRun, Grant, GrantsStart, AfterGrant, Enabled, Apply;
      var safe := Either();
      GrantStep(Here(), m, safe);
      granted := false;
      ghost var before := loop.Now();
      if Motor(m) in loop.starts {
        granted := loop.GrantBlock(m, safe);
        GrantKeepsRunning(before, m, safe);
      }
      phase := if granted then Requesting(m) else AfterGrant(m);
      Record(GrantStart(safe));
    }

    method QueueOne(m: Mode)
      requires At(Requesting(m))
      modifies this, loop, loop.supervisor, loop.runtime
      ensures At(AfterGrant(m)) && old(trace) <= trace && passes == old(passes)
    {
      hide DriveRun;
      var valid := Either();
      loop.QueueBlock(m, valid);
      phase := AfterGrant(m);
      Record(QueueStart(valid));
    }

    method RemotePhase()
      requires At(RemoteTurn)
      modifies this, loop, loop.supervisor
      ensures Valid() && old(trace) <= trace && passes == old(passes) && (loop.halt == Running ==> At(RemoteCheck))
    {
      hide DriveRun, Remote, Enabled, Apply;
      var poll := AnyPoll();
      var outcome: RemoteOutcome := *;
      RemoteStep(Here(), poll, outcome);
      loop.RemoteBlock(poll, outcome);
      phase := RemoteCheck;
      Record(ServeRemote(poll, outcome));
    }

    method RemoteCheckPhase()
      requires At(RemoteCheck)
      modifies this, loop, loop.supervisor
      ensures Valid() && old(trace) <= trace && passes == old(passes) && (loop.halt == Running ==> At(AdcSample))
    {
      hide DriveRun, CheckRemote;
      var due := Either();
      if due {
        loop.RemoteCheckBlock();
      }
      phase := AdcSample;
      Record(VerifyRemote(due));
    }

    method AdcPhase()
      requires At(AdcSample)
      modifies this, loop, loop.supervisor, loop.runtime
      ensures At(ReadinessTurn) && old(trace) <= trace && passes == old(passes)
    {
      hide DriveRun;
      SamplePhase();
      Interrupts(AdcLoop);
      WatchPhase();
    }

    method SamplePhase()
      requires At(AdcSample)
      modifies this, loop, loop.supervisor, loop.runtime
      ensures At(AdcLoop) && old(trace) <= trace && passes == old(passes)
    {
      hide DriveRun, Enabled, Apply, FailDrive;
      var w: World := *;
      var outcome: SampleOutcome := *;
      SampleStep(Here(), outcome);
      FailKeepsRunning(loop.Now());
      match outcome {
        case NoSample =>
        case Calibrated => loop.CalibratedBlock();
        case SampleError => loop.FaultBlock(w);
      }
      phase := AdcLoop;
      Record(SampleAdc(outcome));
    }

    method WatchPhase()
      requires At(AdcLoop)
      modifies this, loop, loop.supervisor, loop.runtime
      ensures At(ReadinessTurn) && old(trace) <= trace && passes == old(passes)
    {
      hide DriveRun, Enabled, Apply, FailDrive, FailStopped;
      var w: World := *;
      var outcome: LoopOutcome := *;
      WatchStep(Here(), outcome);
      FailKeepsRunning(loop.Now());
      match outcome {
        case LoopFine =>
        case LoopFault => loop.FaultBlock(w);
        case LoopStopped => loop.StoppedBackendBlock(w);
      }
      phase := ReadinessTurn;
      Record(WatchLoop(outcome));
    }

    method ReadinessPhase()
      requires At(ReadinessTurn)
      modifies this, loop, loop.supervisor, loop.runtime
      ensures Valid() && old(trace) <= trace
      ensures passes == old(passes) + 1 && (loop.halt == Running ==> At(Top))
    {
      hide DriveRun, Readiness, ReadinessForcesFault, Enabled, Apply;
      var w: World := *;
      var due := Either();
      var ready := Either();
      var motionWasActive := Either();
      ReadinessStep(Here(), due, ready, motionWasActive);
      if due {
        loop.ReadinessBlock(ready, motionWasActive, w);
      }
      phase := Top;
      Record(CheckReadiness(due, ready, motionWasActive));
    }

    /** The first part of a pass: events, commands and stops. */
    method Listen()
      requires At(Top)
      modifies this, loop, loop.supervisor, loop.runtime
      ensures Valid() && old(trace) <= trace && passes == old(passes) && (loop.halt == Running ==> At(Granting(Alignment)))
    {
      hide DriveRun, Valid;
      Interrupts(Top);
      TakePhase();
      Interrupts(EventsTaken);
      EventsPhase();
      if loop.halt != Running { return; }
      Interrupts(Commands);
      CommandsPhase();
      if loop.halt != Running { return; }
      Interrupts(Buttons);
      ButtonsPhase();
      Interrupts(AlignmentStop);
      AlignmentStopPhase();
    }

    /** The second part: grants in the order of the source, the motion stop before the motion starts. */
    method GrantAll()
      requires At(Granting(Alignment))
      modifies this, loop, loop.supervisor, loop.runtime
      ensures At(RemoteTurn) && old(trace) <= trace && passes == old(passes)
    {
      hide DriveRun, Valid, At;
      Interrupts(Granting(Alignment));
      StartPhase(Alignment);
      Interrupts(MotionStop);
      MotionStopPhase();
      Interrupts(Granting(Torque));
      StartPhase(Torque);
      Interrupts(Granting(Velocity));
      StartPhase(Velocity);
      Interrupts(Granting(Position));
      StartPhase(Position);
    }

    /** The last part: remote test, supervision and readiness. */
    method Supervise()
      requires At(RemoteTurn)
      modifies this, loop, loop.supervisor, loop.runtime
      ensures Valid() && old(trace) <= trace
      ensures loop.halt == Running ==> At(Top) && passes == old(passes) + 1
    {
      hide DriveRun, Valid, At;
      Interrupts(RemoteTurn);
      RemotePhase();
      if loop.halt != Running { return; }
      Interrupts(RemoteCheck);
      RemoteCheckPhase();
      if loop.halt != Running { return; }
      Interrupts(AdcSample);
      AdcPhase();
      Interrupts(ReadinessTurn);
      ReadinessPhase();
    }

    /** One pass of the loop; a panic ends it early. */
    method Pass()
      requires At(Top)
      modifies this, loop, loop.supervisor, loop.runtime
      ensures Valid() && old(trace) <= trace
      ensures loop.halt == Running ==> At(Top) && passes == old(passes) + 1
    {
      hide DriveRun, Valid, At;
      Listen();
      if loop.halt != Running { return; }
      GrantAll();
      Supervise();
    }

    // ---- what holds of the objects ----

    /** No timing is needed for the mailboxes. */
    lemma MailboxesExclusive()
      requires Valid()
      ensures forall x, y :: x in loop.starts && y in loop.starts ==> x == y
      ensures loop.starts != {} ==> loop.supervisor.Now() == S.Status(S.Ready, S.NoAuthority)
    {
      hide DriveRun;
      MailboxExclusion(trace, steps, |steps|);
    }

    /** When the record is timely, the live controllers have their authority. */
    lemma LiveIsAuthorized()
      requires Valid()
      ensures |trace| == |steps| + 1
      ensures AllTimely(trace, steps) ==>
                && loop.halt != InternalInvariant
                && (loop.runtime.alignment ==> loop.supervisor.Now() == S.Status(S.Align, S.MotionAuthority))
                && (loop.runtime.torque || loop.runtime.velocity || loop.runtime.position ==>
                      loop.supervisor.Now() == S.Status(S.Run, S.MotionAuthority))
    {
      hide Enabled, Apply, Timely;
      if AllTimely(trace, steps) {
        TimelyRunIsGood(trace, steps, |steps|);
      }
    }

    /** And that authority goes back to a request in the supervisor's own record that nothing has ended. */
    lemma LiveWasGranted() returns (c: nat)
      requires Valid() && AllTimely(trace, steps) && loop.runtime.Outermost().Live?
      ensures S.HeldSince(loop.supervisor.history, c)
      ensures loop.supervisor.history[c].event == RequestEvent(loop.runtime.Outermost().mode)
    {
      hide DriveRun;
      c := LiveHasGrant(trace, steps, |steps|);
    }

    /** The blocks executed so far are whole passes in the order of the source. */
    lemma WholePasses()
      requires Valid() && phase == Top
      ensures DriveRun(trace, steps) && Blocks(trace, steps, |steps|) == Repeated(passes)
    {
      hide Enabled, Apply;
      BlocksInOrder(trace, steps, |steps|);
      WholePass(passes);
    }
  }

  lemma FailKeepsRunning(d: Desk)
    ensures FailDrive(d).halt == d.halt && FailStopped(d).halt == d.halt
  {}

  lemma GrantKeepsRunning(d: Desk, m: Mode, safe: bool)
    requires Motor(m) in d.starts
    ensures Grant(d, m, safe).halt == d.halt
  {}

  /**
   The given number of passes from the entry of the loop, unless a panic ended
   them: whatever commands, samples, outcomes and interleavings they saw, the
   mailboxes are exclusive, and if no start was queued over an unread release
   the live controllers are exactly authorised.
   */
  method RunPasses(passes: nat) returns (d: DriveLoop)
    ensures d.Valid()
    ensures d.loop.halt == Running ==>
              d.phase == Top && Blocks(d.trace, d.steps, |d.steps|) == Repeated(passes)
    ensures forall x, y :: x in d.loop.starts && y in d.loop.starts ==> x == y
    ensures AllTimely(d.trace, d.steps) ==>
              && d.loop.halt != InternalInvariant
              && (d.loop.runtime.alignment ==> d.loop.supervisor.Now() == S.Status(S.Align, S.MotionAuthority))
              && (d.loop.runtime.torque || d.loop.runtime.velocity || d.loop.runtime.position ==>
                    d.loop.supervisor.Now() == S.Status(S.Run, S.MotionAuthority))
  {
    hide Run, Blocks, Repeated, Passes, AllTimely, DriveLoop.Here;
    d := new DriveLoop();
    var n := 0;
    while n < passes && d.loop.halt == Running
      invariant d.Valid() && n <= passes
      invariant d.loop.halt == Running ==> d.At(Top) && d.passes == n
      invariant fresh(d) && fresh(d.loop) && fresh(d.loop.supervisor) && fresh(d.loop.runtime)
    {
      d.Pass();
      n := n + 1;
    }
    d.MailboxesExclusive();
    if d.loop.halt == Running {
      d.WholePasses();
    }
    d.LiveIsAuthorized();
  }
}
