/**
 The foreground loop of firmware/src/main.c: command handlers that fill the
 start and stop mailboxes, and the blocks of one pass that hand them to the
 supervisor and to the rotor runtime.

 `Desk` is what the foreground alone writes. Each block is a method proved
 against a function on the desk; hardware readings and outcomes of backend
 calls are parameters.
 */
module Foreground {
  import S = Supervisor
  import R = RotorRuntime
  import opened Words
  import opened RunDeadline

  datatype Mailbox = RemoteTest | Motor(mode: R.Mode)

  /** Running, or the panic that ended the loop. */
  datatype Halt = Running | DriveControl | InternalInvariant

  /**
   The supervisor's status, the mailboxes, the remote test with the durations it
   was requested with and its deadline, and all the supervisor has been told.
   */
  datatype Desk = Desk(
    sup: S.Status,
    starts: set<Mailbox>,
    stops: set<Mailbox>,
    remoteActive: bool,
    bridgeReady: bool,
    ramp: uint32,
    hold: uint32,
    deadline: uint32,
    halt: Halt,
    told: seq<S.Input>)

  const MOTIONS: set<Mailbox> := {Motor(R.Torque), Motor(R.Velocity), Motor(R.Position)}
  const MOTORS: set<Mailbox> := MOTIONS + {Motor(R.Alignment)}
  const MAILBOXES: set<Mailbox> := MOTORS + {RemoteTest}

  const NO_CONTEXT: S.Context := S.Context(false, false)

  function Without(d: Desk, boxes: set<Mailbox>): Desk {
    d.(starts := d.starts - boxes, stops := d.stops - boxes)
  }

  function ClearMailboxes(d: Desk): Desk {
    d.(starts := {}, stops := {}, remoteActive := false)
  }

  function Inform(d: Desk, e: S.Event, ctx: S.Context): Desk {
    d.(sup := S.Handle(d.sup, e, ctx), told := d.told + [S.Input(e, ctx)])
  }

  /** An event whose refusal is an internal-invariant panic. */
  function Demand(d: Desk, e: S.Event, ctx: S.Context): Desk {
    if S.Accepts(d.sup, e, ctx) then Inform(d, e, ctx)
    else Inform(d, e, ctx).(halt := InternalInvariant)
  }

  function Fail(d: Desk): Desk {
    Inform(d, S.FaultDetected, NO_CONTEXT).(bridgeReady := false)
  }

  predicate MotionAuthorized(d: Desk) {
    S.Authorized(d.sup) && d.sup.authority == S.MotionAuthority
  }

  function HandleEvents(d: Desk, taken: set<R.RotorEvent>): Desk {
    if R.Fault in taken then Fail(ClearMailboxes(d))
    else if R.AlignmentCompleted in taken then
      Demand(Without(d, {Motor(R.Alignment)}), S.AlignmentCompleted, NO_CONTEXT)
    else if R.Released in taken then
      if MotionAuthorized(d) then Demand(Without(d, MOTORS), S.AuthorityReleased, NO_CONTEXT)
      else Without(d, MOTORS)
    else d
  }

  predicate StartAllowed(d: Desk) {
    && d.sup == S.Status(S.Ready, S.NoAuthority)
    && d.bridgeReady
    && d.starts == {} && d.stops == {}
  }

  /** A start command for a mailbox; the durations are those of a remote test. */
  datatype Order = Order(box: Mailbox, ramp: uint32, hold: uint32)

  /** `permitted` stands for the checks that are not modelled. */
  predicate OrderAccepted(d: Desk, o: Order, permitted: bool) {
    StartAllowed(d) && permitted && (o.box.RemoteTest? ==> DurationAccepted(o.ramp, o.hold))
  }

  function AcceptStart(d: Desk, o: Order, permitted: bool): Desk {
    if !OrderAccepted(d, o, permitted) then d
    else if o.box.RemoteTest? then d.(starts := {o.box}, ramp := o.ramp, hold := o.hold)
    else d.(starts := {o.box})
  }

  function StopEverything(d: Desk): Desk {
    d.(starts := {}, stops := MAILBOXES)
  }

  datatype ProbeOutcome = ProbeStarted | ProbeRefused | ProbeFaulted

  function Probe(d: Desk, permitted: bool, duration: uint32, now: uint32, outcome: ProbeOutcome): Desk {
    if !StartAllowed(d) || !permitted then d
    else
      var running := Inform(d, S.DiagnosticOperationRequested, S.Context(true, false));
      match outcome
      case ProbeStarted =>
        running.(remoteActive := true, ramp := 0, hold := duration, deadline := Wrap(now + duration))
      case ProbeRefused => Demand(running, S.AuthorityReleased, NO_CONTEXT)
      case ProbeFaulted => Fail(running)
  }

  function BeginRecovery(d: Desk): Desk {
    ClearMailboxes(d).(bridgeReady := false)
  }

  const SAFE_TO_RECOVER: S.Context := S.Context(false, true)

  /** The end of a recovery whose backend and runtime resets succeeded. */
  function FinishRecovery(d: Desk): Desk {
    if d.sup.state == S.Fault then Acknowledge(d)
    else if S.Accepts(d.sup, S.FaultDetected, NO_CONTEXT) then Acknowledge(Inform(d, S.FaultDetected, NO_CONTEXT))
    else Inform(d, S.FaultDetected, NO_CONTEXT)
  }

  function Acknowledge(d: Desk): Desk {
    Inform(d, S.FaultAcknowledged, SAFE_TO_RECOVER)
    .(bridgeReady := d.bridgeReady || S.Accepts(d.sup, S.FaultAcknowledged, SAFE_TO_RECOVER))
  }

  function RaiseStops(d: Desk, raised: set<Mailbox>): Desk {
    d.(stops := d.stops + raised)
  }

  predicate AlignmentStopDue(d: Desk) { Motor(R.Alignment) in d.stops }

  predicate MotionStopDue(d: Desk) { !(d.stops !! MOTIONS) }

  function ServeAlignmentStop(d: Desk): Desk {
    if AlignmentStopDue(d) then Without(d, {Motor(R.Alignment)}) else d
  }

  function ServeMotionStop(d: Desk): Desk {
    if MotionStopDue(d) then Without(d, MOTIONS) else d
  }

  function RequestEvent(m: R.Mode): S.Event {
    if m == R.Alignment then S.AlignmentRequested else S.MotionRunRequested
  }

  /** The status under which a cascade may be live. */
  function AuthorityFor(m: R.Mode): S.Status {
    S.Granted(RequestEvent(m))
  }

  /** The supervisor's answer to a forwarded start, before the runtime is asked. */
  function Grant(d: Desk, m: R.Mode, safe: bool): Desk
    requires Motor(m) in d.starts
  {
    var ctx := S.Context(d.bridgeReady && safe, false);
    var forwarded := d.(starts := d.starts - {Motor(m)});
    if S.Accepts(d.sup, RequestEvent(m), ctx) then Inform(forwarded, RequestEvent(m), ctx)
    else Fail(Inform(forwarded, RequestEvent(m), ctx))
  }

  predicate GrantsStart(d: Desk, m: R.Mode, safe: bool) {
    Motor(m) in d.starts && S.Accepts(d.sup, RequestEvent(m), S.Context(d.bridgeReady && safe, false))
  }

  function Requested(d: Desk, queued: bool): Desk {
    if queued then d else Fail(d)
  }

  datatype RemoteOutcome = RemoteDone | BackendFaulted | BackendRefused

  /**
   One poll of the remote block: the time, whether housekeeping is due, whether
   the button or a finished probe ends the test, whether the ADC snapshot is
   valid and the encoder fit for control.
   */
  datatype Poll = Poll(now: uint32, due: bool, ended: bool, sampled: bool, encoderReady: bool)

  /** A running test is to end. */
  predicate EndsTest(d: Desk, p: Poll) {
    d.remoteActive && (p.ended || (p.due && Expired(p.now, d.deadline)))
  }

  function Remote(d: Desk, p: Poll, outcome: RemoteOutcome): Desk {
    var e := if EndsTest(d, p) then RaiseStops(d, {RemoteTest}) else d;
    if RemoteTest in e.stops then StopRemote(e, outcome)
    else if RemoteTest in e.starts then
      StartRemote(e.(starts := e.starts - {RemoteTest}), p, outcome)
    else e
  }

  function StopRemote(d: Desk, outcome: RemoteOutcome): Desk {
    var stopped := Without(d, {RemoteTest}).(remoteActive := false);
    if !d.remoteActive then stopped
    else match outcome
      case BackendRefused => stopped.(halt := DriveControl)
      case BackendFaulted => Fail(stopped)
      case RemoteDone => Demand(stopped, S.AuthorityReleased, NO_CONTEXT)
  }

  function StartRemote(d: Desk, p: Poll, outcome: RemoteOutcome): Desk {
    var ctx := S.Context(p.encoderReady, false);
    if !d.bridgeReady || !p.sampled then d
    else
      var running := Inform(d, S.DiagnosticOperationRequested, ctx);
      if !S.Accepts(d.sup, S.DiagnosticOperationRequested, ctx) then running
      else if outcome == RemoteDone then
        running.(remoteActive := true, deadline := DeadlineWord(p.now, d.ramp, d.hold))
      else Inform(running, S.FaultDetected, NO_CONTEXT).(remoteActive := false, halt := DriveControl)
  }

  function CheckRemote(d: Desk): Desk {
    if d.remoteActive && !S.Authorized(d.sup)
    then Inform(d, S.FaultDetected, NO_CONTEXT).(remoteActive := false, halt := InternalInvariant)
    else d
  }

  /** The reaction to an ADC error or to a backend that reports fault flags. */
  function FailDrive(d: Desk): Desk {
    Fail(ClearMailboxes(d))
  }

  /** The reaction to a backend that has stopped under a live controller. */
  function FailStopped(d: Desk): Desk {
    Fail(Without(d, MOTIONS).(remoteActive := false))
  }

  /** Whether the readiness block forces a fault on the runtime. */
  predicate ReadinessForcesFault(d: Desk, ready: bool) {
    !(d.bridgeReady && ready) && S.Authorized(d.sup)
  }

  function Readiness(d: Desk, ready: bool, motionWasActive: bool): Desk {
    if d.bridgeReady && ready then
      if d.sup.state == S.Diagnostic then Demand(d, S.ReadinessConfirmed, S.Context(true, false)) else d
    else if d.sup.state in {S.Ready, S.Align, S.Run} then
      Demand(if S.Authorized(d.sup) then ClearMailboxes(d) else d,
             if motionWasActive then S.FaultDetected else S.ReadinessLost, NO_CONTEXT)
    else d
  }

  // ---- what the functions mean ----

  lemma EventsMeaning(d: Desk, taken: set<R.RotorEvent>)
    ensures
      var e := HandleEvents(d, taken);
      && (R.Fault in taken ==>
            && e.sup == S.FAULTED
            && e.starts == {} && e.stops == {} && !e.remoteActive && !e.bridgeReady)
      && (R.Fault !in taken && R.AlignmentCompleted in taken ==>
            && (d.sup == S.Status(S.Align, S.MotionAuthority) ==>
                  e.sup == S.Status(S.Ready, S.NoAuthority) && e.halt == d.halt)
            && e.starts == d.starts - {Motor(R.Alignment)} && e.stops == d.stops - {Motor(R.Alignment)})
      && (taken == {R.Released} ==>
            && (if MotionAuthorized(d) then e.sup == S.Status(S.Ready, S.NoAuthority) else e.sup == d.sup)
            && e.starts == d.starts - MOTORS && e.stops == d.stops - MOTORS
            && e.halt == d.halt)
      && (taken == {} ==> e == d)
      && (R.Fault !in taken ==> e.remoteActive == d.remoteActive && e.bridgeReady == d.bridgeReady)
      && (e.halt != d.halt ==>
            && e.halt == InternalInvariant
            && R.AlignmentCompleted in taken && d.sup != S.Status(S.Align, S.MotionAuthority))
  {}

  lemma ProbeMeaning(d: Desk, permitted: bool, duration: uint32, now: uint32, outcome: ProbeOutcome)
    ensures
      var e := Probe(d, permitted, duration, now, outcome);
      if !(d.sup == S.Status(S.Ready, S.NoAuthority) && d.bridgeReady && d.starts == {} && d.stops == {} && permitted)
      then e == d
      else
        && e.starts == {} && e.stops == {} && e.halt == d.halt
        && match outcome
           case ProbeStarted =>
             e.sup == S.Status(S.Run, S.DiagnosticAuthority) && e.remoteActive && e.bridgeReady
             && e.ramp == 0 && e.hold == duration && e.deadline == Wrap(now + duration)
           case ProbeRefused =>
             e.sup == S.Status(S.Ready, S.NoAuthority) && e.remoteActive == d.remoteActive && e.bridgeReady
           case ProbeFaulted =>
             e.sup == S.FAULTED && e.remoteActive == d.remoteActive && !e.bridgeReady
  {}

  lemma ReadinessMeaning(d: Desk, ready: bool, motionWasActive: bool)
    requires S.InvariantsHold(d.sup)
    ensures
      var e := Readiness(d, ready, motionWasActive);
      && e.halt == d.halt && e.bridgeReady == d.bridgeReady
      && if d.bridgeReady && ready
         then
           && e.sup == (if d.sup.state == S.Diagnostic then S.Status(S.Ready, S.NoAuthority) else d.sup)
           && e.starts == d.starts && e.stops == d.stops && e.remoteActive == d.remoteActive
         else
           && (d.sup.state == S.Ready ==>
                 && e.sup == (if motionWasActive then S.FAULTED else S.Status(S.Diagnostic, S.NoAuthority))
                 && e.starts == d.starts && e.stops == d.stops)
           && (d.sup.state in {S.Align, S.Run} ==>
                 e.sup == S.FAULTED && e.starts == {} && e.stops == {} && !e.remoteActive)
           && (d.sup.state !in {S.Ready, S.Align, S.Run} ==> e == d)
  {}

  lemma RecoveryMeaning(d: Desk)
    requires S.InvariantsHold(d.sup)
    ensures FinishRecovery(d).sup == S.Status(S.Diagnostic, S.NoAuthority) && FinishRecovery(d).bridgeReady
  {}

  lemma GrantMeaning(d: Desk, m: R.Mode, safe: bool)
    requires Motor(m) in d.starts
    ensures
      var e := Grant(d, m, safe);
      && Motor(m) !in e.starts && e.halt == d.halt
      && if GrantsStart(d, m, safe)
         then d.sup.state == S.Ready && d.bridgeReady && safe && e.sup == AuthorityFor(m)
         else e.sup == S.FAULTED && !e.bridgeReady
  {}

  lemma RemoteMeaning(d: Desk, p: Poll, outcome: RemoteOutcome)
    ensures
      var e := Remote(d, p, outcome);
      && RemoteTest !in e.starts && RemoteTest !in e.stops
      && (d.remoteActive && RemoteTest !in d.starts ==>
            (e.remoteActive <==> !EndsTest(d, p) && RemoteTest !in d.stops))
      && (e.remoteActive && !d.remoteActive ==>
            && RemoteTest in d.starts && RemoteTest !in d.stops
            && d.sup.state == S.Ready && e.bridgeReady && p.sampled && p.encoderReady
            && e.sup == S.Status(S.Run, S.DiagnosticAuthority)
            && e.deadline == DeadlineWord(p.now, d.ramp, d.hold))
  {
    hide Expired, DeadlineWord;
  }

  /** How a test ends: with its authority returned, in FAULT, or in a panic. */
  lemma TestEnds(d: Desk, p: Poll, outcome: RemoteOutcome)
    requires d.remoteActive && d.sup == S.Status(S.Run, S.DiagnosticAuthority)
    requires EndsTest(d, p) || RemoteTest in d.stops
    ensures
      var e := Remote(d, p, outcome);
      match outcome
      case RemoteDone => e.sup == S.Status(S.Ready, S.NoAuthority) && e.halt == d.halt && e.bridgeReady == d.bridgeReady
      case BackendFaulted => e.sup == S.FAULTED && e.halt == d.halt && !e.bridgeReady
      case BackendRefused => e.sup == d.sup && e.halt == DriveControl
  {
    hide EndsTest, StartRemote;
  }

  /** How the start of a test ends. */
  lemma TestStarts(d: Desk, p: Poll, outcome: RemoteOutcome)
    requires !d.remoteActive && d.sup == S.Status(S.Ready, S.NoAuthority)
    requires RemoteTest in d.starts && RemoteTest !in d.stops
    ensures
      var e := Remote(d, p, outcome);
      if !(d.bridgeReady && p.sampled && p.encoderReady) then e.sup == d.sup && !e.remoteActive && e.halt == d.halt
      else if outcome == RemoteDone then
        e.sup == S.Status(S.Run, S.DiagnosticAuthority) && e.remoteActive && e.halt == d.halt
      else e.sup == S.FAULTED && !e.remoteActive && e.halt == DriveControl
  {
    hide Expired, DeadlineWord;
  }

  lemma ReadyAcceptsProbe()
    ensures S.Accepts(S.Status(S.Ready, S.NoAuthority), S.DiagnosticOperationRequested, S.Context(true, false))
  {}

  lemma EveryMailbox(x: Mailbox)
    ensures x in MAILBOXES
  {
    match x
    case RemoteTest =>
    case Motor(m) => assert m.Alignment? || m.Torque? || m.Velocity? || m.Position?;
  }

  class ForegroundLoop {
    const supervisor: S.AppSupervisor
    const runtime: R.RotorControlRuntime
    var starts: set<Mailbox>
    var stops: set<Mailbox>
    var remoteActive: bool
    var bridgeReady: bool
    var ramp: uint32
    var hold: uint32
    var deadline: uint32
    var halt: Halt

    ghost function Now(): Desk
      reads this, supervisor
    {
      Desk(supervisor.Now(), starts, stops, remoteActive, bridgeReady, ramp, hold, deadline, halt, supervisor.history)
    }

    ghost predicate Valid()
      reads this, supervisor, runtime
    {
      supervisor.initialized && runtime.Valid()
    }

    constructor (supervisor: S.AppSupervisor, runtime: R.RotorControlRuntime)
      requires supervisor.initialized && runtime.Valid()
      ensures Valid() && this.supervisor == supervisor && this.runtime == runtime
      ensures Now() == Desk(supervisor.Now(), {}, {}, false, false, 0, 0, 0, Running, supervisor.history)
    {
      this.supervisor, this.runtime := supervisor, runtime;
      starts, stops := {}, {};
      remoteActive, bridgeReady, halt := false, false, Running;
      ramp, hold, deadline := 0, 0, 0;
    }

    method Panic(h: Halt)
      modifies this`halt
      ensures halt == h
    {
      halt := h;
    }

    method DemandEvent(e: S.Event, ctx: S.Context)
      requires supervisor.initialized
      modifies this`halt, supervisor
      ensures supervisor.initialized && Now() == Demand(old(Now()), e, ctx)
    {
      var accepted := supervisor.HandleEvent(e, ctx);
      if !accepted {
        Panic(InternalInvariant);
      }
    }

    method FailBridge()
      requires supervisor.initialized
      modifies this`bridgeReady, supervisor
      ensures supervisor.initialized && Now() == Fail(old(Now()))
    {
      bridgeReady := false;
      var _ := supervisor.HandleEvent(S.FaultDetected, NO_CONTEXT);
    }

    /** FAULT empties every mailbox; a release under motion authority leads back to READY. */
    method EventsBlock(taken: set<R.RotorEvent>)
      requires Valid()
      modifies this, supervisor
      ensures Valid() && Now() == HandleEvents(old(Now()), taken)
      ensures R.Fault in taken ==>
                && supervisor.Now() == S.FAULTED
                && starts == {} && stops == {} && !remoteActive && !bridgeReady
      ensures R.Fault !in taken && R.AlignmentCompleted in taken
              && old(supervisor.Now()) == S.Status(S.Align, S.MotionAuthority) ==>
                supervisor.Now() == S.Status(S.Ready, S.NoAuthority) && halt == old(halt)
      ensures R.Fault !in taken && R.AlignmentCompleted in taken ==>
                starts == old(starts) - {Motor(R.Alignment)} && stops == old(stops) - {Motor(R.Alignment)}
      ensures taken == {R.Released} ==>
                && supervisor.Now() ==
                   (if MotionAuthorized(old(Now())) then S.Status(S.Ready, S.NoAuthority) else old(supervisor.Now()))
                && starts == old(starts) - MOTORS && stops == old(stops) - MOTORS
                && halt == old(halt)
      ensures taken == {} ==> Now() == old(Now())
      ensures halt != old(halt) ==>
                && halt == InternalInvariant
                && R.AlignmentCompleted in taken && old(supervisor.Now()) != S.Status(S.Align, S.MotionAuthority)
    {
      hide S.Handle, S.Accepts, S.Granted;
      EventsMeaning(Now(), taken);
      if R.Fault in taken {
        remoteActive := false;
        starts, stops := {}, {};
        FailBridge();
      } else if R.AlignmentCompleted in taken {
        starts := starts - {Motor(R.Alignment)};
        stops := stops - {Motor(R.Alignment)};
        DemandEvent(S.AlignmentCompleted, NO_CONTEXT);
      } else if R.Released in taken {
        starts := starts - MOTORS;
        stops := stops - MOTORS;
        var authorized := supervisor.BridgeAuthorized();
        if authorized && supervisor.authority == S.MotionAuthority {
          DemandEvent(S.AuthorityReleased, NO_CONTEXT);
        }
      }
    }

    method StartCommand(o: Order, permitted: bool) returns (ok: bool)
      requires Valid()
      modifies this`starts, this`stops, this`ramp, this`hold
      ensures Valid() && Now() == AcceptStart(old(Now()), o, permitted)
      ensures ok == OrderAccepted(old(Now()), o, permitted)
      ensures ok <==>
                && old(supervisor.Now()) == S.Status(S.Ready, S.NoAuthority) && bridgeReady
                && old(starts) == {} && old(stops) == {} && permitted
                && (o.box == RemoteTest ==> 3 <= o.hold && o.ramp + o.hold <= 0x7FFF_FFFF)
      ensures starts == (if ok then {o.box} else old(starts)) && stops == old(stops)
      ensures ok && o.box == RemoteTest ==> ramp == o.ramp && hold == o.hold
    {
      var authorized := supervisor.BridgeAuthorized();
      if o.box == RemoteTest && !DurationAccepted(o.ramp, o.hold) {
        return false;
      }
      if supervisor.state != S.Ready || supervisor.authority != S.NoAuthority || !bridgeReady
         || authorized || starts != {} || stops != {} || !permitted
      {
        return false;
      }
      if o.box == RemoteTest {
        ramp, hold := o.ramp, o.hold;
      }
      stops := stops - {o.box};
      starts := starts + {o.box};
      return true;
    }

    method ProbeCommand(permitted: bool, duration: uint32, now: uint32, outcome: ProbeOutcome) returns (ok: bool)
      requires Valid()
      modifies this, supervisor
      ensures Valid() && Now() == Probe(old(Now()), permitted, duration, now, outcome)
      ensures ok == (StartAllowed(old(Now())) && permitted && outcome == ProbeStarted)
      ensures ok ==>
                && supervisor.Now() == S.Status(S.Run, S.DiagnosticAuthority) && remoteActive
                && deadline == Wrap(now + duration)
      ensures StartAllowed(old(Now())) && permitted && outcome == ProbeRefused ==>
                supervisor.Now() == S.Status(S.Ready, S.NoAuthority) && remoteActive == old(remoteActive) && bridgeReady
      ensures StartAllowed(old(Now())) && permitted && outcome == ProbeFaulted ==>
                supervisor.Now() == S.FAULTED && !bridgeReady
      ensures !(StartAllowed(old(Now())) && permitted) ==> Now() == old(Now())
    {
      ProbeMeaning(Now(), permitted, duration, now, outcome);
      if supervisor.state != S.Ready || supervisor.authority != S.NoAuthority || !bridgeReady
         || starts != {} || stops != {} || !permitted
      {
        return false;
      }
      ReadyAcceptsProbe();
      hide S.Handle, S.Accepts;
      var accepted := supervisor.HandleEvent(S.DiagnosticOperationRequested, S.Context(true, false));
      if !accepted {
        return false;
      }
      match outcome {
        case ProbeStarted =>
          ramp, hold := 0, duration;
          deadline := Wrap(now + duration);
          remoteActive := true;
          return true;
        case ProbeRefused =>
          DemandEvent(S.AuthorityReleased, NO_CONTEXT);
          return false;
        case ProbeFaulted =>
          FailBridge();
          return false;
      }
    }

    method StopCommand()
      requires Valid()
      modifies this`starts, this`stops
      ensures Valid() && Now() == StopEverything(old(Now()))
      ensures starts == {} && forall x :: x in stops
    {
      starts := {};
      stops := MAILBOXES;
      forall x: Mailbox ensures x in MAILBOXES {
        EveryMailbox(x);
      }
    }

    /** `drive_clear_faults`, once it has found a fault source, up to the reset of the runtime. */
    method BeginClearing()
      requires Valid()
      modifies this`starts, this`stops, this`remoteActive, this`bridgeReady
      ensures Valid() && Now() == BeginRecovery(old(Now()))
      ensures starts == {} && stops == {} && !remoteActive && !bridgeReady
    {
      starts, stops, remoteActive := {}, {}, false;
      bridgeReady := false;
    }

    /** The rest of it; `cleared` is the runtime's answer. */
    method FinishClearing(backendRecovered: bool, runtimeResets: bool) returns (cleared: bool)
      requires Valid()
      modifies this`bridgeReady, supervisor, runtime
      ensures Valid()
      ensures Now() == if cleared then FinishRecovery(old(Now())) else old(Now())
      ensures cleared == (backendRecovered && runtimeResets)
      ensures R.RotorStep(old(runtime.View()), R.ClearFaults(cleared), runtime.View())
      ensures cleared && S.InvariantsHold(old(supervisor.Now())) ==>
                && supervisor.Now() == S.Status(S.Diagnostic, S.NoAuthority) && bridgeReady
                && runtime.View() == R.RotorView(R.Idle, {}, {})
    {
      hide S.Handle, S.Accepts;
      if S.InvariantsHold(supervisor.Now()) {
        RecoveryMeaning(Now());
      }
      if !backendRecovered {
        return false;
      }
      cleared := runtime.ClearFaults(runtimeResets);
      if !cleared {
        return false;
      }
      if supervisor.state != S.Fault {
        var accepted := supervisor.HandleEvent(S.FaultDetected, NO_CONTEXT);
        if !accepted {
          return;
        }
      }
      var acknowledged := supervisor.HandleEvent(S.FaultAcknowledged, SAFE_TO_RECOVER);
      if acknowledged {
        bridgeReady := true;
      }
    }

    method RaiseStopsBlock(raised: set<Mailbox>)
      requires Valid()
      modifies this`stops
      ensures Valid() && Now() == RaiseStops(old(Now()), raised)
      ensures stops == old(stops) + raised
    {
      stops := stops + raised;
    }

    method AlignmentStopBlock()
      requires Valid()
      modifies this`starts, this`stops, runtime
      ensures Valid() && Now() == ServeAlignmentStop(old(Now()))
      ensures Motor(R.Alignment) !in stops
      ensures Motor(R.Alignment) in old(stops) ==> Motor(R.Alignment) !in starts && runtime.requests == {R.Stop}
      ensures Motor(R.Alignment) !in old(stops) ==> starts == old(starts) && stops == old(stops)
      ensures if AlignmentStopDue(old(Now()))
              then R.RotorStep(old(runtime.View()), R.RequestStop, runtime.View())
              else runtime.View() == old(runtime.View())
    {
      if Motor(R.Alignment) in stops {
        starts := starts - {Motor(R.Alignment)};
        stops := stops - {Motor(R.Alignment)};
        runtime.RequestStop();
      }
    }

    method MotionStopBlock()
      requires Valid()
      modifies this`starts, this`stops, runtime
      ensures Valid() && Now() == ServeMotionStop(old(Now()))
      ensures stops !! MOTIONS
      ensures (exists m :: m != R.Alignment && Motor(m) in old(stops)) ==>
                starts == old(starts) - MOTIONS && runtime.requests == {R.Stop}
      ensures (forall m :: m != R.Alignment ==> Motor(m) !in old(stops)) ==> starts == old(starts) && stops == old(stops)
      ensures if MotionStopDue(old(Now()))
              then R.RotorStep(old(runtime.View()), R.RequestStop, runtime.View())
              else runtime.View() == old(runtime.View())
    {
      if Motor(R.Torque) in stops || Motor(R.Velocity) in stops || Motor(R.Position) in stops {
        starts := starts - MOTIONS;
        stops := stops - MOTIONS;
        runtime.RequestStop();
      }
    }

    /** The first half of the four grant blocks: the mailbox is emptied and the supervisor asked. */
    method GrantBlock(m: R.Mode, safe: bool) returns (granted: bool)
      requires Valid() && Motor(m) in starts
      modifies this`starts, this`bridgeReady, supervisor
      ensures Valid() && Now() == Grant(old(Now()), m, safe)
      ensures granted == GrantsStart(old(Now()), m, safe)
      ensures Motor(m) !in starts
      ensures granted ==>
                && old(supervisor.state) == S.Ready && old(bridgeReady) && safe
                && supervisor.Now() == AuthorityFor(m)
      ensures !granted ==> supervisor.Now() == S.FAULTED && !bridgeReady
    {
      hide S.Handle, S.Accepts, RequestEvent;
      GrantMeaning(Now(), m, safe);
      var ctx := S.Context(bridgeReady && safe, false);
      starts := starts - {Motor(m)};
      granted := supervisor.HandleEvent(RequestEvent(m), ctx);
      if !granted {
        FailBridge();
      }
    }

    /** The second half: the runtime is asked; `valid` is its check of the parameters. */
    method QueueBlock(m: R.Mode, valid: bool)
      requires Valid()
      modifies this`bridgeReady, supervisor, runtime
      ensures Valid()
      ensures
        var queued := R.StartAccepted(old(runtime.View()), R.RequestStart(m, valid));
        && Now() == Requested(old(Now()), queued)
        && (queued ==> runtime.requests == {R.Start(m)})
        && (!queued ==> supervisor.Now() == S.FAULTED && !bridgeReady)
      ensures R.RotorStep(old(runtime.View()), R.RequestStart(m, valid), runtime.View())
    {
      var ok := runtime.RequestStart(m, valid);
      if !ok {
        FailBridge();
      }
    }

    /** The end of a remote test, or its start; neither mailbox of it stays full. */
    method RemoteBlock(p: Poll, outcome: RemoteOutcome)
      requires Valid()
      modifies this, supervisor
      ensures Valid() && Now() == Remote(old(Now()), p, outcome)
      ensures RemoteTest !in starts && RemoteTest !in stops
      ensures old(remoteActive) && RemoteTest !in old(starts) ==>
                (remoteActive <==>
                   !p.ended && !(p.due && Expired(p.now, old(deadline))) && RemoteTest !in old(stops))
      ensures remoteActive && !old(remoteActive) ==>
                && RemoteTest in old(starts) && RemoteTest !in old(stops)
                && old(supervisor.state) == S.Ready && bridgeReady && p.sampled && p.encoderReady
                && supervisor.Now() == S.Status(S.Run, S.DiagnosticAuthority)
                && deadline == DeadlineWord(p.now, old(ramp), old(hold))
    {
      hide Expired, DeadlineWord, StartRemote, StopRemote;
      RemoteMeaning(Now(), p, outcome);
      if remoteActive && (p.ended || (p.due && Expired(p.now, deadline))) {
        stops := stops + {RemoteTest};
      }
      if RemoteTest in stops {
        EndRemote(outcome);
      } else if RemoteTest in starts {
        starts := starts - {RemoteTest};
        BeginRemote(p, outcome);
      }
    }

    method EndRemote(outcome: RemoteOutcome)
      requires Valid()
      modifies this, supervisor
      ensures Valid() && Now() == StopRemote(old(Now()), outcome)
    {
      hide S.Handle, S.Accepts;
      var wasActive := remoteActive;
      starts := starts - {RemoteTest};
      remoteActive := false;
      stops := stops - {RemoteTest};
      if wasActive {
        match outcome {
          case BackendRefused => Panic(DriveControl);
          case BackendFaulted => FailBridge();
          case RemoteDone => DemandEvent(S.AuthorityReleased, NO_CONTEXT);
        }
      }
    }

    method BeginRemote(p: Poll, outcome: RemoteOutcome)
      requires Valid()
      modifies this, supervisor
      ensures Valid() && Now() == StartRemote(old(Now()), p, outcome)
    {
      hide S.Handle, S.Accepts, DeadlineWord;
      if bridgeReady && p.sampled {
        var accepted := supervisor.HandleEvent(S.DiagnosticOperationRequested, S.Context(p.encoderReady, false));
        if accepted {
          if outcome != RemoteDone {
            remoteActive := false;
            var _ := supervisor.HandleEvent(S.FaultDetected, NO_CONTEXT);
            Panic(DriveControl);
          } else {
            remoteActive := true;
            deadline := DeadlineWord(p.now, ramp, hold);
          }
        }
      }
    }

    method CalibratedBlock()
      requires Valid()
      modifies this`bridgeReady
      ensures Valid() && Now() == old(Now()).(bridgeReady := true)
    {
      bridgeReady := true;
    }

    method FaultBlock(w: R.World)
      requires Valid()
      modifies this, supervisor, runtime
      ensures Valid() && Now() == FailDrive(old(Now()))
      ensures supervisor.Now() == S.FAULTED && starts == {} && stops == {} && !remoteActive && !bridgeReady
      ensures runtime.Secured()
      ensures R.RotorStep(old(runtime.View()), R.ForceFault, runtime.View())
    {
      runtime.ForceFault(w);
      remoteActive := false;
      starts, stops := {}, {};
      FailBridge();
    }

    method StoppedBackendBlock(w: R.World)
      requires Valid()
      modifies this, supervisor, runtime
      ensures Valid() && Now() == FailStopped(old(Now()))
      ensures supervisor.Now() == S.FAULTED && !remoteActive && !bridgeReady
      ensures starts == old(starts) - MOTIONS && stops == old(stops) - MOTIONS
      ensures runtime.Secured()
      ensures R.RotorStep(old(runtime.View()), R.ForceFault, runtime.View())
    {
      runtime.ForceFault(w);
      remoteActive := false;
      starts := starts - MOTIONS;
      stops := stops - MOTIONS;
      FailBridge();
    }

    method RemoteCheckBlock()
      requires Valid()
      modifies this, supervisor
      ensures Valid() && Now() == CheckRemote(old(Now()))
      ensures if old(remoteActive) && !S.Authorized(old(supervisor.Now()))
              then halt == InternalInvariant && supervisor.Now() == S.FAULTED && !remoteActive
              else Now() == old(Now())
    {
      var authorized := supervisor.BridgeAuthorized();
      if remoteActive && !authorized {
        remoteActive := false;
        var _ := supervisor.HandleEvent(S.FaultDetected, NO_CONTEXT);
        Panic(InternalInvariant);
      }
    }

    method ReadinessBlock(ready: bool, motionWasActive: bool, w: R.World)
      requires Valid()
      modifies this, supervisor, runtime
      ensures Valid() && Now() == Readiness(old(Now()), ready, motionWasActive)
      ensures S.InvariantsHold(old(supervisor.Now())) && bridgeReady && ready ==>
                && supervisor.state != S.Diagnostic
                && (old(supervisor.state) == S.Diagnostic ==> supervisor.Now() == S.Status(S.Ready, S.NoAuthority))
                && (old(supervisor.state) != S.Diagnostic ==> supervisor.Now() == old(supervisor.Now()))
      ensures S.InvariantsHold(old(supervisor.Now())) && !(bridgeReady && ready) ==>
                && supervisor.state !in {S.Ready, S.Align, S.Run}
                && (old(supervisor.state) == S.Ready ==>
                      supervisor.state == (if motionWasActive then S.Fault else S.Diagnostic))
                && (old(supervisor.state) in {S.Align, S.Run} ==>
                      supervisor.state == S.Fault && starts == {} && stops == {} && !remoteActive && runtime.Secured())
                && (old(supervisor.state) !in {S.Ready, S.Align, S.Run} ==> supervisor.Now() == old(supervisor.Now()))
      ensures if ReadinessForcesFault(old(Now()), ready)
              then R.RotorStep(old(runtime.View()), R.ForceFault, runtime.View())
              else runtime.View() == old(runtime.View())
    {
      hide S.Handle, S.Accepts;
      if S.InvariantsHold(supervisor.Now()) {
        ReadinessMeaning(Now(), ready, motionWasActive);
      }
      if bridgeReady && ready {
        if supervisor.state == S.Diagnostic {
          DemandEvent(S.ReadinessConfirmed, S.Context(true, false));
        }
      } else if supervisor.state in {S.Ready, S.Align, S.Run} {
        var authorized := supervisor.BridgeAuthorized();
        if authorized {
          runtime.ForceFault(w);
          remoteActive := false;
          starts, stops := {}, {};
        }
        DemandEvent(if motionWasActive then S.FaultDetected else S.ReadinessLost, NO_CONTEXT);
      }
    }
  }
}
