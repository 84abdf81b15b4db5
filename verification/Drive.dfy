/**
 The whole drive: the foreground loop of main.c, one block at a time, with SPI
 callbacks of the rotor runtime between any two blocks. A foreground step
 touches the state it shares with the callback at most once.
 */
module Drive {
  import opened Foreground
  import opened RotorRuntime
  import opened Words
  import opened RunDeadline
  import S = Supervisor

  /** Where the foreground stands in its pass. */
  datatype Phase =
    | Top
    | EventsTaken
    | Commands
    | Recovering
    | Buttons
    | AlignmentStop
    | Granting(mode: Mode)
    | Requesting(mode: Mode)
    | MotionStop
    | RemoteTurn
    | RemoteCheck
    | AdcSample
    | AdcLoop
    | ReadinessTurn

  datatype Drive = Drive(rotor: RotorView, desk: Desk, taken: set<RotorEvent>, phase: Phase)

  /** The state in which the endless loop is entered. */
  const BOOT: Drive :=
    Drive(RotorView(Idle, {}, {}),
          Desk(S.Status(S.Diagnostic, S.NoAuthority), {}, {}, false, false, 0, 0, 0, Running, BOOTING),
          {}, Top)

  /** What the supervisor has been told by then. */
  const BOOTING: seq<S.Input> := [S.Input(S.PassiveInitComplete, NO_CONTEXT)]

  datatype SampleOutcome = NoSample | Calibrated | SampleError
  datatype LoopOutcome = LoopFine | LoopFault | LoopStopped

  datatype Step =
    | Interrupt(sampleValid: bool, after: RotorView)
    | Take(due: bool)
    | HandleTaken
    | StartCommand(order: Order, permitted: bool)
    | ProbeCommand(permitted: bool, duration: uint32, now: uint32, probe: ProbeOutcome)
    | StopCommand
    | ClearFaultsCommand
    | Recover(recovered: bool)
    | EndCommands(linkLost: bool)
    | Press(pressed: set<Mailbox>)
    | ServeAlignment
    | GrantStart(safe: bool)
    | QueueStart(valid: bool)
    | ServeMotion
    | ServeRemote(poll: Poll, remote: RemoteOutcome)
    | VerifyRemote(due: bool)
    | SampleAdc(sample: SampleOutcome)
    | WatchLoop(watched: LoopOutcome)
    | CheckReadiness(due: bool, ready: bool, motionWasActive: bool)

  predicate Enabled(d: Drive, s: Step) {
    && d.desk.halt == Running
    && match s
       case Interrupt(sampleValid, after) => CallbackStep(d.rotor, sampleValid, after)
       case Take(_) => d.phase == Top
       case HandleTaken => d.phase == EventsTaken
       case StartCommand(_, _) => d.phase == Commands
       case ProbeCommand(_, _, _, _) => d.phase == Commands
       case StopCommand => d.phase == Commands
       case ClearFaultsCommand => d.phase == Commands
       case Recover(_) => d.phase == Recovering
       case EndCommands(_) => d.phase == Commands
       case Press(pressed) => d.phase == Buttons && pressed <= MOTORS
       case ServeAlignment => d.phase == AlignmentStop
       case GrantStart(_) => d.phase.Granting?
       case QueueStart(_) => d.phase.Requesting?
       case ServeMotion => d.phase == MotionStop
       case ServeRemote(_, _) => d.phase == RemoteTurn
       case VerifyRemote(_) => d.phase == RemoteCheck
       case SampleAdc(_) => d.phase == AdcSample
       case WatchLoop(_) => d.phase == AdcLoop
       case CheckReadiness(_, _, _) => d.phase == ReadinessTurn
  }

  function AfterGrant(m: Mode): Phase {
    match m
    case Alignment => MotionStop
    case Torque => Granting(Velocity)
    case Velocity => Granting(Position)
    case Position => RemoteTurn
  }

  function Stopping(v: RotorView): RotorView { v.(requests := {Stop}) }

  function Faulting(v: RotorView): RotorView { RotorView(Idle, {}, v.events + {Fault}) }

  function Queueing(v: RotorView, m: Mode, valid: bool): RotorView {
    if StartAccepted(v, RequestStart(m, valid)) then v.(requests := {Start(m)}) else v
  }

  function Apply(d: Drive, s: Step): Drive
    requires Enabled(d, s)
  {
    match s
    case Interrupt(_, after) => d.(rotor := after)
    case Take(due) =>
      if due then d.(rotor := d.rotor.(events := {}), taken := d.rotor.events, phase := EventsTaken)
      else d.(taken := {}, phase := EventsTaken)
    case HandleTaken => d.(desk := HandleEvents(d.desk, d.taken), taken := {}, phase := Commands)
    case StartCommand(order, permitted) => d.(desk := AcceptStart(d.desk, order, permitted))
    case ProbeCommand(permitted, duration, now, outcome) =>
      d.(desk := Probe(d.desk, permitted, duration, now, outcome))
    case StopCommand => d.(desk := StopEverything(d.desk))
    case ClearFaultsCommand => d.(desk := BeginRecovery(d.desk), phase := Recovering)
    case Recover(recovered) =>
      if recovered then d.(rotor := RotorView(Idle, {}, {}), desk := FinishRecovery(d.desk), phase := Commands)
      else d.(phase := Commands)
    case EndCommands(linkLost) =>
      d.(desk := RaiseStops(d.desk, if linkLost then MAILBOXES else {}), phase := Buttons)
    case Press(pressed) => d.(desk := RaiseStops(d.desk, pressed), phase := AlignmentStop)
    case ServeAlignment =>
      d.(rotor := if AlignmentStopDue(d.desk) then Stopping(d.rotor) else d.rotor,
         desk := ServeAlignmentStop(d.desk), phase := Granting(Alignment))
    case GrantStart(safe) =>
      var m := d.phase.mode;
      if Motor(m) !in d.desk.starts then d.(phase := AfterGrant(m))
      else d.(desk := Grant(d.desk, m, safe),
              phase := if GrantsStart(d.desk, m, safe) then Requesting(m) else AfterGrant(m))
    case QueueStart(valid) =>
      var m := d.phase.mode;
      d.(rotor := Queueing(d.rotor, m, valid),
         desk := Requested(d.desk, StartAccepted(d.rotor, RequestStart(m, valid))),
         phase := AfterGrant(m))
    case ServeMotion =>
      d.(rotor := if MotionStopDue(d.desk) then Stopping(d.rotor) else d.rotor,
         desk := ServeMotionStop(d.desk), phase := Granting(Torque))
    case ServeRemote(poll, outcome) => d.(desk := Remote(d.desk, poll, outcome), phase := RemoteCheck)
    case VerifyRemote(due) => d.(desk := if due then CheckRemote(d.desk) else d.desk, phase := AdcSample)
    case SampleAdc(outcome) =>
      (match outcome
       case NoSample => d
       case Calibrated => d.(desk := d.desk.(bridgeReady := true))
       case SampleError => d.(rotor := Faulting(d.rotor), desk := FailDrive(d.desk))).(phase := AdcLoop)
    case WatchLoop(outcome) =>
      (match outcome
       case LoopFine => d
       case LoopFault => d.(rotor := Faulting(d.rotor), desk := FailDrive(d.desk))
       case LoopStopped => d.(rotor := Faulting(d.rotor), desk := FailStopped(d.desk))).(phase := ReadinessTurn)
    case CheckReadiness(due, ready, motionWasActive) =>
      (if !due then d
       else d.(rotor := if ReadinessForcesFault(d.desk, ready) then Faulting(d.rotor) else d.rotor,
               desk := Readiness(d.desk, ready, motionWasActive))).(phase := Top)
  }

  /** The runtime operation a step performs. */
  function OpOf(d: Drive, s: Step): RotorOp
    requires Enabled(d, s)
  {
    match s
    case Interrupt(sampleValid, _) => Callback(sampleValid)
    case Take(due) => if due then TakeEvents else Nothing
    case Recover(recovered) => ClearFaults(recovered)
    case ServeAlignment => if AlignmentStopDue(d.desk) then RequestStop else Nothing
    case ServeMotion => if MotionStopDue(d.desk) then RequestStop else Nothing
    case QueueStart(valid) => RequestStart(d.phase.mode, valid)
    case SampleAdc(outcome) => if outcome == SampleError then ForceFault else Nothing
    case WatchLoop(outcome) => if outcome != LoopFine then ForceFault else Nothing
    case CheckReadiness(due, ready, _) =>
      if due && ReadinessForcesFault(d.desk, ready) then ForceFault else Nothing
    case _ => Nothing
  }

  /** Every step touches the runtime through at most one of its operations. */
  lemma StepIsRotorStep(d: Drive, s: Step)
    requires Enabled(d, s)
    ensures RotorStep(d.rotor, OpOf(d, s), Apply(d, s).rotor)
  {}

  /**
   The timing the code relies on: a start enters the runtime's mailbox only
   when no AUTHORITY_RELEASED event is waiting to be read.
   */
  predicate Timely(d: Drive, s: Step) {
    s.QueueStart? && d.phase.Requesting? && StartAccepted(d.rotor, RequestStart(d.phase.mode, s.valid))
    ==> Released !in d.rotor.events
  }

  // ---- what every step keeps ----

  /** Nothing is live and no start is queued. */
  predicate Quiet(v: RotorView) {
    v.live == Idle && !StartQueued(v)
  }

  /** A live cascade runs under exactly the authority that was granted for it. */
  predicate Agreement(d: Drive) {
    d.rotor.live.Live? ==> d.desk.sup == AuthorityFor(d.rotor.live.mode)
  }

  predicate QueuedAgreement(d: Drive) {
    forall m :: Start(m) in d.rotor.requests ==> d.desk.sup == AuthorityFor(m)
  }

  /** What an unread or a taken set of events says about the rest of the drive. */
  predicate CompletionHeld(events: set<RotorEvent>, sup: S.Status) {
    AlignmentCompleted in events && Fault !in events ==> sup == AuthorityFor(Alignment)
  }

  predicate EventsHeld(d: Drive) {
    && (d.rotor.events != {} ==> Quiet(d.rotor))
    && (Fault in d.rotor.events ==> d.desk.sup == S.FAULTED || d.desk.sup.authority == S.MotionAuthority)
    && CompletionHeld(d.rotor.events, d.desk.sup)
  }

  /** Only a release can still be unread: what holds while a pass acts on a quiet runtime. */
  predicate Settled(v: RotorView) {
    Quiet(v) && v.events <= {Released}
  }

  predicate PhaseHeld(d: Drive) {
    && (d.phase == EventsTaken && d.taken != {} ==> Settled(d.rotor) && CompletionHeld(d.taken, d.desk.sup))
    && (d.phase.Requesting? ==> Settled(d.rotor) && d.desk.sup == AuthorityFor(d.phase.mode))
    && (d.phase == Recovering ==> !d.desk.remoteActive)
  }

  predicate SupervisorHeld(d: Desk) {
    && S.InvariantsHold(d.sup)
    && (d.remoteActive ==> d.sup == S.Status(S.Run, S.DiagnosticAuthority))
    && d.halt != InternalInvariant
  }

  /** How far into a pass a start mailbox can still be full. */
  predicate InWindow(x: Mailbox, p: Phase) {
    || p in {Commands, Buttons, AlignmentStop}
    || p == Granting(Alignment)
    || (x != Motor(Alignment) && p in {MotionStop, Granting(Torque)})
    || (x in {Motor(Velocity), Motor(Position), RemoteTest} && p == Granting(Velocity))
    || (x in {Motor(Position), RemoteTest} && p == Granting(Position))
    || (x == RemoteTest && p == RemoteTurn)
  }

  /** At most one start mailbox, only under READY, and never beside its own served stop. */
  predicate MailboxesHeld(d: Desk, p: Phase) {
    && (d.starts != {} ==> d.sup == S.Status(S.Ready, S.NoAuthority))
    && (forall x, y :: x in d.starts && y in d.starts ==> x == y)
    && (forall x :: x in d.starts ==> InWindow(x, p))
    && (p == Granting(Alignment) ==> Motor(Alignment) !in d.stops)
    && ((p.Granting? || p.Requesting?) && p.mode != Alignment ==> d.stops !! MOTIONS)
  }

  predicate Good(d: Drive) {
    && MailboxValid(d.rotor)
    && Agreement(d)
    && QueuedAgreement(d)
    && EventsHeld(d)
    && PhaseHeld(d)
    && SupervisorHeld(d.desk)
    && MailboxesHeld(d.desk, d.phase)
  }

  lemma BootIsGood()
    ensures Good(BOOT)
  {}

  lemma InterruptKeeps(d: Drive, s: Step)
    requires Good(d) && Enabled(d, s) && Timely(d, s) && s.Interrupt?
    ensures Good(Apply(d, s))
  {}

  lemma TakeKeeps(d: Drive, s: Step)
    requires Good(d) && Enabled(d, s) && Timely(d, s) && s.Take?
    ensures Good(Apply(d, s))
  {}

  lemma StartCommandKeeps(d: Drive, s: Step)
    requires Good(d) && Enabled(d, s) && Timely(d, s) && s.StartCommand?
    ensures Good(Apply(d, s))
  {}

  lemma StopCommandKeeps(d: Drive, s: Step)
    requires Good(d) && Enabled(d, s) && Timely(d, s) && s.StopCommand?
    ensures Good(Apply(d, s))
  {}

  lemma ClearFaultsCommandKeeps(d: Drive, s: Step)
    requires Good(d) && Enabled(d, s) && Timely(d, s) && s.ClearFaultsCommand?
    ensures Good(Apply(d, s))
  {}

  lemma RecoveredDesk(d: Desk)
    requires SupervisorHeld(d) && MailboxesHeld(d, Recovering) && !d.remoteActive
    ensures SupervisorHeld(FinishRecovery(d)) && MailboxesHeld(FinishRecovery(d), Commands)
  {
    assert d.starts == {};
  }

  /** A cleared runtime is consistent with any status. */
  lemma CleanRotor(e: Drive)
    requires e.rotor == RotorView(Idle, {}, {}) && e.phase == Commands
    ensures RotorHeld(e)
  {}

  lemma RecoverKeeps(d: Drive, s: Step)
    requires Good(d) && Enabled(d, s) && Timely(d, s) && s.Recover?
    ensures Good(Apply(d, s))
  {
    hide RotorHeld, FinishRecovery;
    var e := Apply(d, s);
    if s.recovered {
      RecoveredDesk(d.desk);
      CleanRotor(e);
      HeldTogether(e);
    }
  }

  lemma EndCommandsKeeps(d: Drive, s: Step)
    requires Good(d) && Enabled(d, s) && Timely(d, s) && s.EndCommands?
    ensures Good(Apply(d, s))
  {}

  lemma PressKeeps(d: Drive, s: Step)
    requires Good(d) && Enabled(d, s) && Timely(d, s) && s.Press?
    ensures Good(Apply(d, s))
  {}

  lemma ServeAlignmentKeeps(d: Drive, s: Step)
    requires Good(d) && Enabled(d, s) && Timely(d, s) && s.ServeAlignment?
    ensures Good(Apply(d, s))
  {
    assert Stop in Stopping(d.rotor).requests;
  }

  /** The part of `Good` that ties the runtime to the supervisor. */
  predicate RotorHeld(d: Drive) {
    MailboxValid(d.rotor) && Agreement(d) && QueuedAgreement(d) && EventsHeld(d) && PhaseHeld(d)
  }

  lemma HeldTogether(d: Drive)
    ensures Good(d) <==> RotorHeld(d) && SupervisorHeld(d.desk) && MailboxesHeld(d.desk, d.phase)
  {}

  /** Without motion authority, and with no fault reported, the runtime is quiet. */
  lemma QuietWithoutMotion(d: Drive)
    requires Good(d) && d.desk.sup.authority != S.MotionAuthority && d.desk.sup != S.FAULTED
    ensures Settled(d.rotor)
  {
    assert Fault !in d.rotor.events;
    assert AlignmentCompleted !in d.rotor.events;
    forall e | e in d.rotor.events ensures e == Released {
      assert e.Fault? || e.AlignmentCompleted? || e.Released?;
    }
    assert forall m :: Start(m) !in d.rotor.requests;
  }

  /** Over a settled runtime the supervisor may change its status freely. */
  lemma SettledAllows(d: Drive, e: Drive)
    requires RotorHeld(d) && Settled(d.rotor) && e.rotor == d.rotor
    requires e.phase !in {EventsTaken, Recovering} && (e.phase.Requesting? ==> e.desk.sup == AuthorityFor(e.phase.mode))
    ensures RotorHeld(e)
  {}

  lemma WindowMoves(x: Mailbox, m: Mode)
    requires InWindow(x, Granting(m)) && x != Motor(m)
    ensures InWindow(x, AfterGrant(m))
  {
    match x
    case RemoteTest =>
    case Motor(k) => assert k.Alignment? || k.Torque? || k.Velocity? || k.Position?;
  }

  lemma ProbedDesk(d: Desk, permitted: bool, duration: uint32, now: uint32, outcome: ProbeOutcome)
    requires SupervisorHeld(d) && MailboxesHeld(d, Commands)
    ensures
      var e := Probe(d, permitted, duration, now, outcome);
      && SupervisorHeld(e) && MailboxesHeld(e, Commands)
      && (e.sup != d.sup ==> d.sup == S.Status(S.Ready, S.NoAuthority))
  {}

  lemma ProbeCommandKeeps(d: Drive, s: Step)
    requires Good(d) && Enabled(d, s) && Timely(d, s) && s.ProbeCommand?
    ensures Good(Apply(d, s))
  {
    hide RotorHeld, Probe;
    var e := Apply(d, s);
    ProbedDesk(d.desk, s.permitted, s.duration, s.now, s.probe);
    HeldTogether(d);
    HeldTogether(e);
    if e.desk.sup != d.desk.sup {
      QuietWithoutMotion(d);
      SettledAllows(d, e);
    } else {
      SameStatus(d, e);
    }
  }

  lemma SameStatus(d: Drive, e: Drive)
    requires RotorHeld(d) && e.rotor == d.rotor && e.desk.sup == d.desk.sup && d.phase == e.phase == Commands
    ensures RotorHeld(e)
  {}

  lemma GrantDesk(d: Desk, m: Mode, safe: bool)
    requires SupervisorHeld(d) && MailboxesHeld(d, Granting(m)) && Motor(m) in d.starts
    ensures d.sup == S.Status(S.Ready, S.NoAuthority)
    ensures
      var e := Grant(d, m, safe);
      && SupervisorHeld(e) && e.starts == {} && e.stops == d.stops
      && e.sup == if GrantsStart(d, m, safe) then AuthorityFor(m) else S.FAULTED
  {
    assert forall x :: x in d.starts ==> x == Motor(m);
  }

  lemma GrantStartKeeps(d: Drive, s: Step)
    requires Good(d) && Enabled(d, s) && Timely(d, s) && s.GrantStart?
    ensures Good(Apply(d, s))
  {
    hide RotorHeld, Grant, GrantsStart;
    var e := Apply(d, s);
    var m := d.phase.mode;
    if Motor(m) in d.desk.starts {
      GrantDesk(d.desk, m, s.safe);
      QuietWithoutMotion(d);
      HeldTogether(d);
      SettledAllows(d, e);
      HeldTogether(e);
    } else {
      forall x | x in d.desk.starts ensures InWindow(x, AfterGrant(m)) {
        WindowMoves(x, m);
      }
    }
  }

  lemma QueueStartKeeps(d: Drive, s: Step)
    requires Good(d) && Enabled(d, s) && Timely(d, s) && s.QueueStart?
    ensures Good(Apply(d, s))
  {}

  lemma ServeMotionKeeps(d: Drive, s: Step)
    requires Good(d) && Enabled(d, s) && Timely(d, s) && s.ServeMotion?
    ensures Good(Apply(d, s))
  {
    assert Stop in Stopping(d.rotor).requests;
  }

  lemma StoppedDesk(d: Desk, outcome: RemoteOutcome)
    requires SupervisorHeld(d) && d.halt == Running && d.starts <= {RemoteTest} && RemoteTest in d.stops
    ensures
      var e := StopRemote(d, outcome);
      && SupervisorHeld(e) && e.starts == {}
      && (e.sup != d.sup ==> d.sup.authority != S.MotionAuthority && d.sup != S.FAULTED)
  {}

  lemma StartedDesk(d: Desk, p: Poll, outcome: RemoteOutcome)
    requires SupervisorHeld(d) && d.halt == Running && d.sup == S.Status(S.Ready, S.NoAuthority)
    ensures
      var e := StartRemote(d, p, outcome);
      SupervisorHeld(e) && e.starts == d.starts
  {
    hide DeadlineWord;
  }

  lemma RemoteDesk(d: Desk, p: Poll, outcome: RemoteOutcome)
    requires SupervisorHeld(d) && MailboxesHeld(d, RemoteTurn) && d.halt == Running
    ensures
      var e := Remote(d, p, outcome);
      && SupervisorHeld(e) && MailboxesHeld(e, RemoteCheck)
      && (e.sup != d.sup ==> d.sup.authority != S.MotionAuthority && d.sup != S.FAULTED)
  {
    hide StopRemote, StartRemote, EndsTest;
    assert d.starts <= {RemoteTest};
    var e := if EndsTest(d, p) then RaiseStops(d, {RemoteTest}) else d;
    if RemoteTest in e.stops {
      StoppedDesk(e, outcome);
    } else if RemoteTest in e.starts {
      StartedDesk(e.(starts := e.starts - {RemoteTest}), p, outcome);
    }
  }

  lemma ServeRemoteKeeps(d: Drive, s: Step)
    requires Good(d) && Enabled(d, s) && Timely(d, s) && s.ServeRemote?
    ensures Good(Apply(d, s))
  {
    hide RotorHeld, Remote;
    var e := Apply(d, s);
    RemoteDesk(d.desk, s.poll, s.remote);
    if e.desk.sup != d.desk.sup {
      QuietWithoutMotion(d);
      HeldTogether(d);
      SettledAllows(d, e);
      HeldTogether(e);
    }
  }

  lemma VerifyRemoteKeeps(d: Drive, s: Step)
    requires Good(d) && Enabled(d, s) && Timely(d, s) && s.VerifyRemote?
    ensures Good(Apply(d, s))
  {}

  lemma EventsDesk(d: Desk, taken: set<RotorEvent>)
    requires SupervisorHeld(d) && MailboxesHeld(d, EventsTaken) && CompletionHeld(taken, d.sup)
    ensures SupervisorHeld(HandleEvents(d, taken)) && MailboxesHeld(HandleEvents(d, taken), Commands)
    ensures taken == {} ==> HandleEvents(d, taken) == d
  {
    assert d.starts == {};
  }

  lemma HandleTakenKeeps(d: Drive, s: Step)
    requires Good(d) && Enabled(d, s) && Timely(d, s) && s.HandleTaken?
    ensures Good(Apply(d, s))
  {
    hide RotorHeld, HandleEvents;
    var e := Apply(d, s);
    EventsDesk(d.desk, d.taken);
    if d.taken != {} {
      HeldTogether(d);
      SettledAllows(d, e);
      HeldTogether(e);
    }
  }

  /** A forced fault together with FAULT in the supervisor is always consistent. */
  lemma ForcedFault(d: Drive, e: Drive)
    requires e.rotor == Faulting(d.rotor) && e.desk.sup == S.FAULTED
    requires e.phase in {Top, AdcLoop, ReadinessTurn}
    ensures RotorHeld(e)
  {}

  lemma FailedDesk(d: Desk)
    requires SupervisorHeld(d)
    ensures
      var e := FailDrive(d);
      SupervisorHeld(e) && e.sup == S.FAULTED && e.starts == {} && e.stops == {}
    ensures
      var e := FailStopped(d);
      SupervisorHeld(e) && e.sup == S.FAULTED && e.starts <= d.starts
  {}

  lemma SampleAdcKeeps(d: Drive, s: Step)
    requires Good(d) && Enabled(d, s) && Timely(d, s) && s.SampleAdc?
    ensures Good(Apply(d, s))
  {
    hide RotorHeld, FailDrive;
    var e := Apply(d, s);
    if s.sample == SampleError {
      FailedDesk(d.desk);
      ForcedFault(d, e);
      HeldTogether(e);
    }
  }

  lemma WatchLoopKeeps(d: Drive, s: Step)
    requires Good(d) && Enabled(d, s) && Timely(d, s) && s.WatchLoop?
    ensures Good(Apply(d, s))
  {
    hide RotorHeld, FailDrive, FailStopped;
    var e := Apply(d, s);
    if s.watched != LoopFine {
      FailedDesk(d.desk);
      assert d.desk.starts == {};
      ForcedFault(d, e);
      HeldTogether(e);
    }
  }

  lemma ReadinessDesk(d: Desk, ready: bool, motionWasActive: bool)
    requires SupervisorHeld(d) && MailboxesHeld(d, ReadinessTurn)
    ensures
      var e := Readiness(d, ready, motionWasActive);
      && SupervisorHeld(e) && MailboxesHeld(e, Top)
      && if ReadinessForcesFault(d, ready) then e.sup == S.FAULTED
         else e.sup != d.sup ==> d.sup.authority != S.MotionAuthority && d.sup != S.FAULTED
  {
    assert d.starts == {};
  }

  lemma CheckReadinessKeeps(d: Drive, s: Step)
    requires Good(d) && Enabled(d, s) && Timely(d, s) && s.CheckReadiness?
    ensures Good(Apply(d, s))
  {
    hide RotorHeld, Readiness, ReadinessForcesFault;
    var e := Apply(d, s);
    if s.due {
      ReadinessDesk(d.desk, s.ready, s.motionWasActive);
      if ReadinessForcesFault(d.desk, s.ready) {
        ForcedFault(d, e);
        HeldTogether(e);
      } else if e.desk.sup != d.desk.sup {
        QuietWithoutMotion(d);
        HeldTogether(d);
        SettledAllows(d, e);
        HeldTogether(e);
      }
    }
  }

  lemma StepKeepsGood(d: Drive, s: Step)
    requires Good(d) && Enabled(d, s) && Timely(d, s)
    ensures Good(Apply(d, s))
  {
    hide Good, Enabled, Timely, Apply;
    match s
    case Interrupt(_, _) => InterruptKeeps(d, s);
    case Take(_) => TakeKeeps(d, s);
    case HandleTaken => HandleTakenKeeps(d, s);
    case StartCommand(_, _) => StartCommandKeeps(d, s);
    case ProbeCommand(_, _, _, _) => ProbeCommandKeeps(d, s);
    case StopCommand => StopCommandKeeps(d, s);
    case ClearFaultsCommand => ClearFaultsCommandKeeps(d, s);
    case Recover(_) => RecoverKeeps(d, s);
    case EndCommands(_) => EndCommandsKeeps(d, s);
    case Press(_) => PressKeeps(d, s);
    case ServeAlignment => ServeAlignmentKeeps(d, s);
    case GrantStart(_) => GrantStartKeeps(d, s);
    case QueueStart(_) => QueueStartKeeps(d, s);
    case ServeMotion => ServeMotionKeeps(d, s);
    case ServeRemote(_, _) => ServeRemoteKeeps(d, s);
    case VerifyRemote(_) => VerifyRemoteKeeps(d, s);
    case SampleAdc(_) => SampleAdcKeeps(d, s);
    case WatchLoop(_) => WatchLoopKeeps(d, s);
    case CheckReadiness(_, _, _) => CheckReadinessKeeps(d, s);
  }
}
