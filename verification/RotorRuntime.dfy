/**
 The rotor-control runtime of firmware/src/app/rotor_control_runtime.c: four
 nested controllers, a request mailbox and an event word, advanced by the SPI
 callback and by the foreground inside critical sections.

 A controller is its `active` bit. Its operations, and those of the current-loop
 backend, succeed or fail freely within what their headers and implementations
 guarantee about that bit.
 */
module RotorRuntime {
  datatype Mode = Alignment | Torque | Velocity | Position

  datatype Request = Stop | Start(mode: Mode)

  datatype RotorEvent = Released | AlignmentCompleted | Fault

  /** The result of one controller update. */
  datatype Progress = Unchanged | Changed | Completed | Failed

  /** Which cascade is live, named by its outermost controller. */
  datatype Cascade = Idle | Live(mode: Mode)

  /** What the rest of the drive sees of the runtime. */
  datatype RotorView = RotorView(live: Cascade, requests: set<Request>, events: set<RotorEvent>)

  const STARTS: set<Request> := {Start(Alignment), Start(Torque), Start(Velocity), Start(Position)}

  lemma EveryStartIsListed(m: Mode)
    ensures Start(m) in STARTS
  {}

  /** At most one request bit, and a queued start only over an idle runtime. */
  predicate MailboxValid(v: RotorView) {
    && (v.requests == {} || exists r :: r in v.requests && v.requests == {r})
    && (v.requests !! STARTS || v.live == Idle)
  }

  predicate StartQueued(v: RotorView) {
    !(v.requests !! STARTS)
  }

  /**
   What one SPI callback may do to the runtime, whatever the controllers and the
   backend do; `sampleValid` says whether the encoder gave a usable sample.
   */
  predicate CallbackStep(v: RotorView, sampleValid: bool, w: RotorView) {
    && w.requests == {}
    && if !sampleValid then w == Rejected(v)
       else if Stop in v.requests then StoppedStep(v, w)
       else if StartQueued(v) then StartedStep(v, w)
       else w.(requests := v.requests) == v || LostStep(v, w)
  }

  /** Without feedback everything ends, and everything that was live or about to be is a fault. */
  function Rejected(v: RotorView): RotorView {
    RotorView(Idle, {},
              v.events
              + (if v.live != Idle || (StartQueued(v) && Stop !in v.requests) then {Fault} else {})
              + (if Stop in v.requests then {Released} else {}))
  }

  predicate StoppedStep(v: RotorView, w: RotorView) {
    && w.live == Idle
    && if v.live == Idle then w.events == v.events + {Released}
       else w.events in {v.events + {Released}, v.events + {Fault}}
  }

  predicate StartedStep(v: RotorView, w: RotorView) {
    || (w.live.Live? && Start(w.live.mode) in v.requests && w.events == v.events)
    || (w.live == Idle && w.events == v.events + {Fault})
  }

  predicate LostStep(v: RotorView, w: RotorView) {
    && v.live != Idle && w.live == Idle
    && (|| w.events in {v.events + {Released}, v.events + {Fault}}
        || (v.live == Live(Alignment) && w.events == v.events + {AlignmentCompleted}))
  }

  /** The operations on the runtime, each one indivisible against the callback. */
  datatype RotorOp =
    | Callback(sampleValid: bool)
    | RequestStart(mode: Mode, parametersValid: bool)
    | RequestStop
    | ForceFault
    | ClearFaults(ok: bool)
    | TakeEvents
    | Nothing

  predicate StartAccepted(v: RotorView, op: RotorOp) {
    op.RequestStart? && op.parametersValid && v.requests == {} && v.live == Idle
  }

  predicate RotorStep(v: RotorView, op: RotorOp, w: RotorView) {
    match op
    case Callback(sampleValid) => CallbackStep(v, sampleValid, w)
    case RequestStart(m, _) => w == if StartAccepted(v, op) then v.(requests := {Start(m)}) else v
    case RequestStop => w == v.(requests := {Stop})
    case ForceFault => w == RotorView(Idle, {}, v.events + {Fault})
    case ClearFaults(ok) => w == if ok then RotorView(Idle, {}, {}) else v
    case TakeEvents => w == v.(events := {})
    case Nothing => w == v
  }

  /**
   What the controllers, the motor alignment and the backend answer during one
   callback. `backendHealthy`: initialised and without faults; `backendClean`:
   no fault in the snapshot after a stop.
   */
  datatype World = World(
    backendHealthy: bool,
    phaseKnown: bool,
    alignmentStarts: bool,
    torqueStarts: bool,
    velocityStarts: bool,
    positionStarts: bool,
    backendStarts: bool,
    alignmentReports: Progress,
    torqueReports: Progress,
    velocityReports: Progress,
    positionReports: Progress,
    velocityTargetSet: bool,
    torqueTargetSet: bool,
    referenceReady: bool,
    referenceTaken: bool,
    backendStops: bool,
    backendClean: bool)

  lemma QueuedMode(v: RotorView) returns (m: Mode)
    requires MailboxValid(v) && StartQueued(v)
    ensures v.requests == {Start(m)}
  {
    var r :| r in v.requests && r in STARTS;
    m := r.mode;
  }

  lemma NothingQueued(v: RotorView)
    requires MailboxValid(v) && Stop !in v.requests && !StartQueued(v)
    ensures v.requests == {}
  {
    forall r ensures r !in v.requests {
      if r.Start? {
        EveryStartIsListed(r.mode);
      }
    }
  }

  /** Everything a start of this mode asks for is granted. */
  predicate StartSucceeds(m: Mode, w: World) {
    && w.backendHealthy && w.referenceTaken && w.backendStarts
    && match m
       case Alignment => w.alignmentStarts && w.referenceReady
       case Torque => w.phaseKnown && w.torqueStarts
       case Velocity => w.phaseKnown && w.velocityStarts && w.torqueStarts
       case Position => w.phaseKnown && w.positionStarts && w.velocityStarts && w.torqueStarts
  }

  /** The torque layer follows the layer above it. */
  predicate TorqueFollows(w: World) {
    w.torqueTargetSet && w.phaseKnown && w.torqueReports == Changed && w.referenceTaken
  }

  class RotorControlRuntime {
    var alignment: bool
    var torque: bool
    var velocity: bool
    var position: bool
    var requests: set<Request>
    var events: set<RotorEvent>
    var backendRunning: bool
    /** The bridge outputs have been forced low since the backend last started. */
    ghost var bridgeLow: bool
    /** How often FAULT has been posted. */
    ghost var faultPosts: nat

    predicate Active()
      reads this
    {
      alignment || torque || velocity || position
    }

    function Outermost(): Cascade
      reads this
    {
      if alignment then Live(Alignment)
      else if position then Live(Position)
      else if velocity then Live(Velocity)
      else if torque then Live(Torque)
      else Idle
    }

    /** None, alignment alone, torque, torque + velocity, or torque + velocity + position. */
    predicate CascadeShape()
      reads this
    {
      && (alignment ==> !torque && !velocity && !position)
      && (velocity ==> torque)
      && (position ==> velocity)
    }

    function View(): RotorView
      reads this
    {
      RotorView(Outermost(), requests, events)
    }

    ghost predicate Valid()
      reads this
    {
      CascadeShape() && MailboxValid(View())
    }

    /** The condition in which FAULT may be posted. */
    ghost predicate Secured()
      reads this
    {
      bridgeLow && !backendRunning && !Active() && requests == {}
    }

    constructor ()
      ensures Valid() && View() == RotorView(Idle, {}, {}) && faultPosts == 0
    {
      alignment, torque, velocity, position := false, false, false, false;
      requests, events := {}, {};
      backendRunning := false;
      bridgeLow, faultPosts := true, 0;
    }

    // ---- controllers ----

    /** A controller update: what it reports, and whether it is active afterwards. */
    method UpdateAlignmentController(reports: Progress) returns (e: Progress)
      modifies this`alignment
      ensures e == if old(alignment) then reports else Unchanged
      ensures alignment == (old(alignment) && e in {Unchanged, Changed})
    {
      e := if alignment then reports else Unchanged;
      alignment := alignment && e in {Unchanged, Changed};
    }

    method UpdateTorqueController(phaseValid: bool, reports: Progress) returns (e: Progress)
      modifies this`torque
      ensures e == if !old(torque) then Unchanged else if !phaseValid then Failed else reports
      ensures torque == (old(torque) && e in {Unchanged, Changed})
    {
      e := if !torque then Unchanged else if !phaseValid then Failed else reports;
      torque := torque && e in {Unchanged, Changed};
    }

    method UpdateVelocityController(reports: Progress) returns (e: Progress)
      modifies this`velocity
      ensures e == if old(velocity) then reports else Unchanged
      ensures velocity == (old(velocity) && e in {Unchanged, Changed})
    {
      e := if velocity then reports else Unchanged;
      velocity := velocity && e in {Unchanged, Changed};
    }

    method UpdatePositionController(reports: Progress) returns (e: Progress)
      modifies this`position
      ensures e == if old(position) then reports else Unchanged
      ensures position == (old(position) && e in {Unchanged, Changed})
    {
      e := if position then reports else Unchanged;
      position := position && e in {Unchanged, Changed};
    }

    // ---- backend and bridge ----

    method BackendStart(answer: bool) returns (ok: bool)
      modifies this`backendRunning, this`bridgeLow
      ensures ok == answer && (ok ==> backendRunning && !bridgeLow)
    {
      ok := answer;
      backendRunning := ok;
      if ok {
        bridgeLow := false;
      }
    }

    method BackendStop(answer: bool) returns (ok: bool)
      modifies this`backendRunning
      ensures ok == answer && !backendRunning
    {
      ok := answer;
      backendRunning := false;
    }

    method PostFault()
      requires Secured()
      modifies this`events, this`faultPosts
      ensures events == old(events) + {Fault} && faultPosts == old(faultPosts) + 1
    {
      events := events + {Fault};
      faultPosts := faultPosts + 1;
    }

    /** The ending every failure shares: backend stopped, bridge low, FAULT posted. */
    method StopAndFault(w: World)
      requires !Active() && requests == {}
      modifies this`events, this`faultPosts, this`backendRunning, this`bridgeLow
      ensures Secured()
      ensures events == old(events) + {Fault} && faultPosts == old(faultPosts) + 1
    {
      var _ := BackendStop(w.backendStops);
      bridgeLow := true;
      PostFault();
    }

    method StopBackend(w: World, event: RotorEvent) returns (ok: bool)
      requires !Active() && requests == {} && event != Fault
      modifies this`events, this`faultPosts, this`backendRunning, this`bridgeLow
      ensures !backendRunning
      ensures ok <==> w.backendStops && w.backendClean
      ensures ok ==> events == old(events) + {event} && faultPosts == old(faultPosts)
      ensures !ok ==> events == old(events) + {Fault} && faultPosts > old(faultPosts) && bridgeLow
    {
      ok := BackendStop(w.backendStops);
      if !ok || !w.backendClean {
        bridgeLow := true;
        PostFault();
        return false;
      }
      events := events + {event};
      return true;
    }

    // ---- endings ----

    /** The cascade goes on as it was. */
    twostate predicate Kept()
      reads this
    {
      Outermost() == old(Outermost()) && events == old(events) && faultPosts == old(faultPosts)
    }

    /** Everything has ended with the event, or in a fault when the backend did not stop cleanly. */
    twostate predicate Ended(w: World, event: RotorEvent)
      reads this
    {
      && !Active() && !backendRunning
      && if w.backendStops && w.backendClean then events == old(events) + {event} && faultPosts == old(faultPosts)
         else Faulted()
    }

    /** Everything has ended in a fault, secured. */
    twostate predicate Faulted()
      reads this
    {
      Secured() && events == old(events) + {Fault} && faultPosts > old(faultPosts)
    }

    method FailActiveControl(w: World)
      requires CascadeShape() && requests == {}
      modifies this
      ensures requests == {} && !Active()
      ensures if old(Active()) then Faulted()
              else events == old(events) && faultPosts == old(faultPosts)
                   && backendRunning == old(backendRunning) && bridgeLow == old(bridgeLow)
    {
      if !Active() {
        return;
      }
      if velocity {
        velocity := false;
      }
      if position {
        position := false;
      }
      alignment := false;
      if torque {
        var _ := UpdateTorqueController(false, w.torqueReports);
      }
      StopAndFault(w);
    }

    method ProcessStopRequest(w: World)
      requires CascadeShape() && requests == {}
      modifies this
      ensures requests == {} && !Active()
      ensures old(Active()) ==> Ended(w, Released)
      ensures !old(Active()) ==>
                && events == old(events) + {Released} && faultPosts == old(faultPosts)
                && backendRunning == old(backendRunning) && bridgeLow == old(bridgeLow)
    {
      var stopped := false;
      if alignment {
        alignment := false;
        stopped := true;
      }
      if position {
        position := false;
        stopped := true;
      }
      if velocity {
        velocity := false;
        stopped := true;
      }
      if torque {
        torque := false;
        stopped := true;
      }
      if stopped {
        var _ := StopBackend(w, Released);
      } else {
        events := events + {Released};
      }
    }

    method RejectRequestsWithoutFeedback(w: World)
      requires Valid()
      modifies this
      ensures Valid() && CallbackStep(old(View()), false, View())
      ensures NoSilentLoss(old(Active()), old(events), old(faultPosts))
      ensures !Active() && requests == {}
      ensures old(Active()) ==> Secured() && faultPosts > old(faultPosts)
      ensures StartQueued(old(View())) ==> Secured() && Fault in events
      ensures Stop in old(requests) ==> Released in events
    {
      var pending := requests;
      requests := {};
      FailActiveControl(w);
      if Stop in pending {
        ProcessStopRequest(w);
      } else if !(pending !! STARTS) {
        StopAndFault(w);
      }
    }

    /**
     A live runtime that becomes idle has its backend stopped and says so; a
     posted FAULT finds the bridge low and nothing live or queued.
     */
    ghost predicate NoSilentLoss(wasActive: bool, eventsBefore: set<RotorEvent>, postsBefore: nat)
      reads this
    {
      && (wasActive && !Active() ==>
            && !backendRunning
            && (|| faultPosts > postsBefore
                || events == eventsBefore + {Released}
                || events == eventsBefore + {AlignmentCompleted}))
      && faultPosts >= postsBefore
      && (faultPosts > postsBefore ==> Secured() && Fault in events)
      && (Fault in events && Fault !in eventsBefore ==> faultPosts > postsBefore)
    }

    // ---- starts ----

    /** A start brings up the whole cascade with the backend running, or nothing, in a fault. */
    twostate predicate StartOutcome(m: Mode, started: bool)
      reads this
    {
      && CascadeShape() && requests == {}
      && if started
         then Outermost() == Live(m) && backendRunning && events == old(events) && faultPosts == old(faultPosts)
         else Faulted()
    }

    method StartAlignment(w: World) returns (started: bool)
      requires CascadeShape() && !Active() && requests == {}
      modifies this
      ensures started <==>
                && !old(backendRunning) && w.backendHealthy && w.alignmentStarts
                && w.referenceReady && w.referenceTaken && w.backendStarts
      ensures StartOutcome(Alignment, started)
    {
      started := w.backendHealthy && !backendRunning;
      if started {
        started := w.alignmentStarts;
        alignment := started;
      }
      if started {
        started := w.referenceReady;
      }
      if started {
        started := w.referenceTaken;
      }
      if started {
        started := BackendStart(w.backendStarts);
      }
      if !started {
        alignment := false;
        StopAndFault(w);
      }
    }

    method StartTorque(w: World) returns (started: bool)
      requires CascadeShape() && !Active() && requests == {}
      modifies this
      ensures started <==>
                && !old(backendRunning) && w.backendHealthy && w.phaseKnown
                && w.torqueStarts && w.referenceTaken && w.backendStarts
      ensures StartOutcome(Torque, started)
    {
      started := w.backendHealthy && !backendRunning;
      if started {
        started := w.phaseKnown;
      }
      if started {
        started := w.torqueStarts;
        torque := started;
      }
      if started {
        started := w.referenceTaken;
      }
      if started {
        started := BackendStart(w.backendStarts);
      }
      if !started {
        if torque {
          torque := false;
        }
        StopAndFault(w);
      }
    }

    method StartVelocity(w: World) returns (started: bool)
      requires CascadeShape() && !Active() && requests == {}
      modifies this
      ensures started <==>
                && !old(backendRunning) && w.backendHealthy && w.phaseKnown
                && w.velocityStarts && w.torqueStarts && w.referenceTaken && w.backendStarts
      ensures StartOutcome(Velocity, started)
    {
      started := w.backendHealthy && !backendRunning;
      if started {
        started := w.phaseKnown;
      }
      if started {
        started := w.velocityStarts;
        velocity := started;
      }
      if started {
        started := w.torqueStarts;
        torque := started;
      }
      if started {
        started := w.referenceTaken;
      }
      if started {
        started := BackendStart(w.backendStarts);
      }
      if !started {
        if velocity {
          velocity := false;
        }
        if torque {
          torque := false;
        }
        StopAndFault(w);
      }
    }

    method StartPosition(w: World) returns (started: bool)
      requires CascadeShape() && !Active() && requests == {}
      modifies this
      ensures started <==>
                && !old(backendRunning) && w.backendHealthy && w.phaseKnown
                && w.positionStarts && w.velocityStarts && w.torqueStarts && w.referenceTaken && w.backendStarts
      ensures StartOutcome(Position, started)
    {
      started := w.backendHealthy && !backendRunning;
      if started {
        started := w.phaseKnown;
      }
      if started {
        started := w.positionStarts;
        position := started;
      }
      if started {
        started := w.velocityStarts;
        velocity := started;
      }
      if started {
        started := w.torqueStarts;
        torque := started;
      }
      if started {
        started := w.referenceTaken;
      }
      if started {
        started := BackendStart(w.backendStarts);
      }
      if !started {
        if position {
          position := false;
        }
        if velocity {
          velocity := false;
        }
        if torque {
          torque := false;
        }
        StopAndFault(w);
      }
    }

    // ---- updates ----

    twostate predicate AlignmentOutcome(w: World)
      reads this
    {
      match w.alignmentReports
      case Unchanged => Kept()
      case Changed => if w.referenceReady && w.referenceTaken then Kept() else Faulted()
      case Completed => Ended(w, AlignmentCompleted)
      case Failed => Ended(w, Released)
    }

    method UpdateAlignment(w: World)
      requires CascadeShape() && alignment && requests == {}
      modifies this
      ensures CascadeShape() && requests == {}
      ensures AlignmentOutcome(w)
    {
      var event := UpdateAlignmentController(w.alignmentReports);
      if event == Changed {
        if !w.referenceReady || !w.referenceTaken {
          alignment := false;
          StopAndFault(w);
        }
      } else if event == Completed {
        var _ := StopBackend(w, AlignmentCompleted);
      } else if event == Failed {
        var _ := StopBackend(w, Released);
      }
    }

    /** For the motion cascades: what the outermost controller reported, and whether all below it followed. */
    twostate predicate MotionOutcome(w: World, event: Progress, followed: bool)
      reads this
    {
      && CascadeShape() && requests == {}
      && match event
         case Unchanged => Kept()
         case Changed => if followed then Kept() else Faulted()
         case Completed => Ended(w, Released)
         case Failed => Faulted()
    }

    method UpdateTorque(w: World)
      requires CascadeShape() && torque && !velocity && requests == {}
      modifies this
      ensures MotionOutcome(w, if w.phaseKnown then w.torqueReports else Failed, w.referenceTaken)
    {
      var event := UpdateTorqueController(w.phaseKnown, w.torqueReports);
      if event == Changed {
        if !w.referenceTaken {
          torque := false;
          event := Failed;
        }
      }
      if event == Completed {
        var _ := StopBackend(w, Released);
      } else if event == Failed {
        StopAndFault(w);
      }
    }

    /** The torque update nested in the outer loops: its reference must change and be taken. */
    method DriveTorque(w: World) returns (event: Progress)
      modifies this`torque
      ensures event == Changed <==> old(torque) && w.phaseKnown && w.torqueReports == Changed && w.referenceTaken
      ensures event == Changed ==> torque
    {
      event := UpdateTorqueController(w.phaseKnown, w.torqueReports);
      if event == Changed {
        if !w.referenceTaken {
          torque := false;
          event := Failed;
        }
      }
    }

    method UpdateVelocity(w: World)
      requires CascadeShape() && velocity && !position && requests == {}
      modifies this
      ensures MotionOutcome(w, w.velocityReports,
                            w.torqueTargetSet && w.phaseKnown && w.torqueReports == Changed && w.referenceTaken)
    {
      var event := UpdateVelocityController(w.velocityReports);
      if event == Changed {
        if !w.torqueTargetSet {
          velocity := false;
          event := Failed;
        } else {
          var torqueEvent := DriveTorque(w);
          if torqueEvent != Changed {
            velocity := false;
            event := Failed;
          }
        }
      }
      if event == Completed {
        if torque {
          torque := false;
        }
        var _ := StopBackend(w, Released);
      } else if event == Failed {
        if torque {
          torque := false;
        }
        StopAndFault(w);
      }
    }

    method UpdatePosition(w: World)
      requires CascadeShape() && position && requests == {}
      modifies this
      ensures MotionOutcome(w, w.positionReports,
                            && w.velocityTargetSet && w.velocityReports == Changed
                            && w.torqueTargetSet && w.phaseKnown && w.torqueReports == Changed && w.referenceTaken)
    {
      var event := UpdatePositionController(w.positionReports);
      if event == Changed {
        if !w.velocityTargetSet {
          position := false;
          event := Failed;
        } else {
          var velocityEvent := UpdateVelocityController(w.velocityReports);
          var torqueEvent := Unchanged;
          if velocityEvent == Changed && w.torqueTargetSet {
            torqueEvent := DriveTorque(w);
          }
          if velocityEvent != Changed || torqueEvent != Changed {
            position := false;
            event := Failed;
          }
        }
      }
      if event == Completed {
        if velocity {
          velocity := false;
        }
        if torque {
          torque := false;
        }
        var _ := StopBackend(w, Released);
      } else if event == Failed {
        if velocity {
          velocity := false;
        }
        if torque {
          torque := false;
        }
        StopAndFault(w);
      }
    }

    // ---- the SPI callback ----

    /** What one update of the live cascade may do. */
    twostate predicate UpdateOutcome()
      reads this
    {
      && CascadeShape() && requests == {}
      && (|| Kept()
          || Faulted()
          || (!Active() && !backendRunning && events == old(events) + {Released} && faultPosts == old(faultPosts))
          || (old(alignment) && !Active() && !backendRunning
              && events == old(events) + {AlignmentCompleted} && faultPosts == old(faultPosts)))
    }

    /** What the update of the cascade that was live comes to, by what its controllers report. */
    twostate predicate CascadeOutcome(w: World)
      reads this
    {
      match old(Outermost())
      case Idle => Kept()
      case Live(Alignment) => AlignmentOutcome(w)
      case Live(Torque) => MotionOutcome(w, if w.phaseKnown then w.torqueReports else Failed, w.referenceTaken)
      case Live(Velocity) => MotionOutcome(w, w.velocityReports, TorqueFollows(w))
      case Live(Position) =>
        MotionOutcome(w, w.positionReports, w.velocityTargetSet && w.velocityReports == Changed && TorqueFollows(w))
    }

    method UpdateLive(w: World)
      requires CascadeShape() && requests == {}
      modifies this
      ensures CascadeOutcome(w)
      ensures CascadeShape() && requests == {}
      ensures !old(Active()) ==> Kept() && backendRunning == old(backendRunning) && bridgeLow == old(bridgeLow)
      ensures old(Active()) ==> UpdateOutcome()
    {
      if alignment {
        UpdateAlignment(w);
      } else if position {
        UpdatePosition(w);
      } else if velocity {
        UpdateVelocity(w);
      } else if torque {
        UpdateTorque(w);
      }
    }

    method RunStart(w: World, pending: set<Request>) returns (started: bool)
      requires CascadeShape() && !Active() && requests == {}
      requires exists m :: pending == {Start(m)}
      modifies this
      ensures exists m ::
                && pending == {Start(m)} && StartOutcome(m, started)
                && (started <==> !old(backendRunning) && StartSucceeds(m, w))
    {
      ghost var m :| pending == {Start(m)};
      assert Start(m) in pending && forall k :: Start(k) in pending ==> k == m;
      if Start(Alignment) in pending {
        started := StartAlignment(w);
      } else if Start(Torque) in pending {
        started := StartTorque(w);
      } else if Start(Velocity) in pending {
        started := StartVelocity(w);
      } else {
        started := StartPosition(w);
      }
      assert StartOutcome(m, started);
    }

    /** `sampleValid`: transport, frame, status flags and estimator all accepted the sample. */
    method SpiCallback(sampleValid: bool, w: World)
      requires Valid()
      modifies this
      ensures Valid() && RotorStep(old(View()), Callback(sampleValid), View())
      ensures NoSilentLoss(old(Active()), old(events), old(faultPosts))
      ensures requests == {}
      ensures !sampleValid ==> !Active()
      ensures !sampleValid && old(Active()) ==> Secured() && faultPosts > old(faultPosts)
      ensures !sampleValid && StartQueued(old(View())) ==> Secured() && Fault in events
      ensures Stop in old(requests) ==> !Active() && (Released in events || (Fault in events && Secured()))
      ensures sampleValid && Stop in old(requests) && old(Active()) ==> Ended(w, Released)
      ensures sampleValid && old(requests) == {} ==> CascadeOutcome(w)
      ensures sampleValid ==>
                forall m :: old(requests) == {Start(m)} ==>
                              (Outermost() == Live(m) <==> !old(backendRunning) && StartSucceeds(m, w))
      ensures Active() && !old(Active()) ==>
                && sampleValid && Outermost().Live? && old(requests) == {Start(Outermost().mode)}
                && backendRunning && !old(backendRunning) && w.backendHealthy
    {
      hide CallbackStep, NoSilentLoss, CascadeOutcome, Ended, StartSucceeds, MailboxValid;
      if !sampleValid {
        RejectRequestsWithoutFeedback(w);
      } else if Stop in requests {
        ServeStop(w);
      } else if !(requests !! STARTS) {
        ServeStart(w);
      } else {
        ServeUpdate(w);
      }
    }

    method ServeStop(w: World)
      requires Valid() && Stop in requests
      modifies this
      ensures Valid() && CallbackStep(old(View()), true, View())
      ensures NoSilentLoss(old(Active()), old(events), old(faultPosts))
      ensures requests == {} && !Active()
      ensures Released in events || (Fault in events && Secured())
      ensures old(Active()) ==> Ended(w, Released)
    {
      requests := {};
      ProcessStopRequest(w);
    }

    method ServeStart(w: World)
      requires Valid() && Stop !in requests && StartQueued(View())
      modifies this
      ensures Valid() && CallbackStep(old(View()), true, View())
      ensures NoSilentLoss(old(Active()), old(events), old(faultPosts))
      ensures requests == {}
      ensures exists m ::
                && old(requests) == {Start(m)}
                && (Outermost() == Live(m) <==> !old(backendRunning) && StartSucceeds(m, w))
      ensures Active() ==>
                && Outermost().Live? && old(requests) == {Start(Outermost().mode)}
                && backendRunning && !old(backendRunning) && w.backendHealthy
    {
      var pending := requests;
      requests := {};
      ghost var m := QueuedMode(old(View()));
      var started := RunStart(w, pending);
      assert Start(m) in pending;
      if !started {
        UpdateLive(w);
      }
    }

    method ServeUpdate(w: World)
      requires Valid() && Stop !in requests && !StartQueued(View())
      modifies this
      ensures Valid() && CallbackStep(old(View()), true, View())
      ensures NoSilentLoss(old(Active()), old(events), old(faultPosts))
      ensures old(requests) == {} && requests == {}
      ensures CascadeOutcome(w)
      ensures !old(Active()) ==> !Active()
    {
      hide CascadeOutcome;
      NothingQueued(View());
      UpdateLive(w);
    }

    // ---- foreground operations ----

    /** The four `request_*` start functions; `parametersValid` is their check of the arguments. */
    method RequestStart(m: Mode, parametersValid: bool) returns (ok: bool)
      requires Valid()
      modifies this`requests
      ensures Valid() && RotorStep(old(View()), RotorOp.RequestStart(m, parametersValid), View())
      ensures ok == StartAccepted(old(View()), RotorOp.RequestStart(m, parametersValid))
      ensures ok <==> parametersValid && old(requests) == {} && !Active()
      ensures requests == if ok then {Start(m)} else old(requests)
    {
      if !parametersValid || requests != {} || Active() {
        return false;
      }
      requests := {Start(m)};
      return true;
    }

    method RequestStop()
      requires Valid()
      modifies this`requests
      ensures Valid() && RotorStep(old(View()), RotorOp.RequestStop, View())
      ensures requests == {Stop}
    {
      requests := {Stop};
    }

    method ForceFault(w: World)
      requires Valid()
      modifies this
      ensures Valid() && RotorStep(old(View()), RotorOp.ForceFault, View())
      ensures NoSilentLoss(old(Active()), old(events), old(faultPosts))
      ensures Secured() && faultPosts > old(faultPosts) && events == old(events) + {Fault}
    {
      requests := {};
      if Active() {
        FailActiveControl(w);
      } else {
        StopAndFault(w);
      }
    }

    /** `resets`: every controller could be initialised anew. */
    method ClearFaults(resets: bool) returns (ok: bool)
      requires Valid()
      modifies this
      ensures Valid() && RotorStep(old(View()), RotorOp.ClearFaults(ok), View())
      ensures faultPosts == old(faultPosts)
      ensures ok == resets
      ensures if ok then !Active() && requests == {} && events == {} else View() == old(View())
    {
      ok := resets;
      if ok {
        alignment, torque, velocity, position := false, false, false, false;
        requests := {};
        events := {};
      }
    }

    method TakeEvents() returns (taken: set<RotorEvent>)
      requires Valid()
      modifies this`events
      ensures Valid() && RotorStep(old(View()), RotorOp.TakeEvents, View())
      ensures taken == old(events) && events == {}
    {
      taken := events;
      events := {};
    }
  }
}
