/**
 The drive supervisor of firmware/src/app/app_state.c: the state and authority
 that decide whether the bridge may be energised.
 */
module Supervisor {
  datatype State = ResetSafe | Diagnostic | Ready | Align | Run | Fault

  datatype Authority = NoAuthority | DiagnosticAuthority | MotionAuthority

  datatype Event =
    | PassiveInitComplete
    | ReadinessConfirmed
    | ReadinessLost
    | DiagnosticOperationRequested
    | AlignmentRequested
    | MotionRunRequested
    | AlignmentCompleted
    | AuthorityReleased
    | FaultDetected
    | FaultAcknowledged

  datatype Context = Context(safeToEnergize: bool, safeToRecover: bool)

  datatype Status = Status(state: State, authority: Authority)

  const INITIAL: Status := Status(ResetSafe, NoAuthority)
  const FAULTED: Status := Status(Fault, NoAuthority)

  predicate InvariantsHold(s: Status) {
    match s.state
    case Align => s.authority == MotionAuthority
    case Run => s.authority != NoAuthority
    case _ => s.authority == NoAuthority
  }

  /** What a request made in READY is granted. */
  function Granted(e: Event): Status
    requires e in REQUESTS
  {
    match e
    case DiagnosticOperationRequested => Status(Run, DiagnosticAuthority)
    case AlignmentRequested => Status(Align, MotionAuthority)
    case MotionRunRequested => Status(Run, MotionAuthority)
  }

  const REQUESTS: set<Event> := {DiagnosticOperationRequested, AlignmentRequested, MotionRunRequested}

  /** The status after an event, whether or not the event was accepted. */
  function Handle(s: Status, e: Event, ctx: Context): Status {
    if !InvariantsHold(s) || e == FaultDetected then FAULTED
    else match s.state
      case ResetSafe => if e == PassiveInitComplete then Status(Diagnostic, NoAuthority) else s
      case Diagnostic =>
        if e == ReadinessConfirmed && ctx.safeToEnergize then Status(Ready, NoAuthority) else s
      case Ready =>
        if e == ReadinessLost then Status(Diagnostic, NoAuthority)
        else if e in REQUESTS && ctx.safeToEnergize then Granted(e)
        else s
      case Align =>
        if e == ReadinessLost then FAULTED
        else if e in {AlignmentCompleted, AuthorityReleased} then Status(Ready, NoAuthority)
        else s
      case Run =>
        if e == ReadinessLost then FAULTED
        else if e == AuthorityReleased then Status(Ready, NoAuthority)
        else s
      case Fault => if e == FaultAcknowledged && ctx.safeToRecover then Status(Diagnostic, NoAuthority) else s
  }

  /** Whether `app_supervisor_handle_event` reports the event as accepted. */
  predicate Accepts(s: Status, e: Event, ctx: Context) {
    && InvariantsHold(s)
    && (Handle(s, e, ctx) != s
        || e == FaultDetected
        || (s.state == Diagnostic && e == ReadinessLost))
  }

  predicate Authorized(s: Status) {
    InvariantsHold(s) && s.state in {Align, Run}
  }

  datatype Input = Input(event: Event, context: Context)

  class AppSupervisor {
    var state: State
    var authority: Authority
    var initialized: bool
    /** Every event it has been told, in order. */
    ghost var history: seq<Input>

    function Now(): Status
      reads this
    {
      Status(state, authority)
    }

    constructor ()
      ensures initialized && Now() == INITIAL && history == []
    {
      state, authority, initialized := ResetSafe, NoAuthority, true;
      history := [];
    }

    method Enter(s: State, a: Authority)
      modifies this`state, this`authority
      ensures Now() == Status(s, a)
    {
      state := s;
      authority := a;
    }

    method HandleEvent(e: Event, ctx: Context) returns (accepted: bool)
      modifies this
      ensures initialized == old(initialized)
      ensures Now() == if initialized then Handle(old(Now()), e, ctx) else old(Now())
      ensures accepted == (initialized && Accepts(old(Now()), e, ctx))
      ensures history == old(history) + [Input(e, ctx)]
    {
      hide Handle, Accepts;
      history := history + [Input(e, ctx)];
      accepted := Decide(e, ctx);
    }

    method Decide(e: Event, ctx: Context) returns (accepted: bool)
      modifies this`state, this`authority
      ensures Now() == if initialized then Handle(old(Now()), e, ctx) else old(Now())
      ensures accepted == (initialized && Accepts(old(Now()), e, ctx))
    {
      if !initialized {
        return false;
      }
      if !InvariantsHold(Now()) {
        Enter(Fault, NoAuthority);
        return false;
      }
      if e == FaultDetected {
        Enter(Fault, NoAuthority);
        return true;
      }
      match state {
        case ResetSafe =>
          if e == PassiveInitComplete {
            Enter(Diagnostic, NoAuthority);
            return true;
          }
        case Diagnostic =>
          if e == ReadinessLost {
            return true;
          }
          if e == ReadinessConfirmed && ctx.safeToEnergize {
            Enter(Ready, NoAuthority);
            return true;
          }
        case Ready =>
          if e == ReadinessLost {
            Enter(Diagnostic, NoAuthority);
            return true;
          }
          if ctx.safeToEnergize {
            if e == DiagnosticOperationRequested {
              Enter(Run, DiagnosticAuthority);
              return true;
            }
            if e == AlignmentRequested {
              Enter(Align, MotionAuthority);
              return true;
            }
            if e == MotionRunRequested {
              Enter(Run, MotionAuthority);
              return true;
            }
          }
        case Align =>
          if e == ReadinessLost {
            Enter(Fault, NoAuthority);
            return true;
          }
          if e == AlignmentCompleted || e == AuthorityReleased {
            Enter(Ready, NoAuthority);
            return true;
          }
        case Run =>
          if e == ReadinessLost {
            Enter(Fault, NoAuthority);
            return true;
          }
          if e == AuthorityReleased {
            Enter(Ready, NoAuthority);
            return true;
          }
        case Fault =>
          if e == FaultAcknowledged && ctx.safeToRecover {
            Enter(Diagnostic, NoAuthority);
            return true;
          }
      }
      return false;
    }

    method BridgeAuthorized() returns (r: bool)
      ensures r == (initialized && Authorized(Now()))
    {
      if !initialized || !InvariantsHold(Now()) {
        return false;
      }
      if state == Align {
        return authority == MotionAuthority;
      }
      if state == Run {
        return authority == DiagnosticAuthority || authority == MotionAuthority;
      }
      return false;
    }
  }

  // ---- whole event histories ----

  /** The status after a history of events from initialisation. */
  function After(history: seq<Input>): Status {
    if history == [] then INITIAL
    else
      var last := history[|history| - 1];
      Handle(After(history[..|history| - 1]), last.event, last.context)
  }

  lemma {:induction false} InvariantsAlwaysHold(history: seq<Input>)
    ensures InvariantsHold(After(history))
  {
    if history != [] {
      InvariantsAlwaysHold(history[..|history| - 1]);
    }
  }

  /** A safe request taken while READY, as the c-th event. */
  predicate GrantAt(history: seq<Input>, c: nat) {
    && c < |history|
    && After(history[..c]).state == Ready
    && history[c].event in REQUESTS
    && history[c].context.safeToEnergize
  }

  /** The events that end an operation granted on a request. */
  predicate Ends(request: Event, e: Event) {
    || e in {FaultDetected, ReadinessLost, AuthorityReleased}
    || (request == AlignmentRequested && e == AlignmentCompleted)
  }

  /** Nothing has ended the operation granted at c. */
  predicate HeldSince(history: seq<Input>, c: nat) {
    && GrantAt(history, c)
    && forall j :: c < j < |history| ==> !Ends(history[c].event, history[j].event)
  }

  lemma HandleRunning(request: Event, e: Event, ctx: Context)
    requires request in REQUESTS
    ensures Authorized(Handle(Granted(request), e, ctx)) <==> !Ends(request, e)
    ensures !Ends(request, e) ==> Handle(Granted(request), e, ctx) == Granted(request)
  {}

  lemma HandleIdle(s: Status, e: Event, ctx: Context)
    requires InvariantsHold(s) && !Authorized(s)
    ensures Authorized(Handle(s, e, ctx)) <==> s.state == Ready && e in REQUESTS && ctx.safeToEnergize
    ensures Authorized(Handle(s, e, ctx)) ==> Handle(s, e, ctx) == Granted(e)
  {}

  lemma GrantPrefix(history: seq<Input>, c: nat)
    requires 0 < |history| && c < |history| - 1
    ensures GrantAt(history[..|history| - 1], c) <==> GrantAt(history, c)
  {
    assert history[..|history| - 1][..c] == history[..c];
  }

  /** A held grant determines the status: exactly what was granted, bridge authorised. */
  lemma {:induction false} HeldGrantAuthorizes(history: seq<Input>, c: nat)
    requires HeldSince(history, c)
    ensures After(history) == Granted(history[c].event) && Authorized(After(history))
    decreases |history|
  {
    hide Handle, Ends, Granted;
    var n := |history| - 1;
    var before := history[..n];
    InvariantsAlwaysHold(before);
    if c == n {
      HandleIdle(After(before), history[n].event, history[n].context);
    } else {
      GrantPrefix(history, c);
      HeldGrantAuthorizes(before, c);
      HandleRunning(history[c].event, history[n].event, history[n].context);
    }
  }

  /** An authorised bridge goes back to a grant that nothing has ended. */
  lemma {:induction false} AuthorizedHasGrant(history: seq<Input>) returns (c: nat)
    requires Authorized(After(history))
    ensures HeldSince(history, c)
  {
    hide Handle, Ends, Granted;
    var n := |history| - 1;
    var before := history[..n];
    InvariantsAlwaysHold(before);
    if Authorized(After(before)) {
      c := AuthorizedHasGrant(before);
      HeldGrantAuthorizes(before, c);
      GrantPrefix(history, c);
      HandleRunning(before[c].event, history[n].event, history[n].context);
    } else {
      c := n;
      HandleIdle(After(before), history[n].event, history[n].context);
    }
  }

  /** The bridge is authorised exactly while some grant is held. */
  lemma AuthorizedIff(history: seq<Input>)
    ensures Authorized(After(history)) <==> exists c: nat :: HeldSince(history, c)
  {
    hide Handle, HeldSince;
    if Authorized(After(history)) {
      var c := AuthorizedHasGrant(history);
    }
    if c: nat :| HeldSince(history, c) {
      HeldGrantAuthorizes(history, c);
    }
  }

  // ---- recovery from a fault ----

  predicate SafeAcknowledgement(i: Input) {
    i.event == FaultAcknowledged && i.context.safeToRecover
  }

  predicate SafeConfirmation(i: Input) {
    i.event == ReadinessConfirmed && i.context.safeToEnergize
  }

  predicate SafeRequest(i: Input) {
    i.event in REQUESTS && i.context.safeToEnergize
  }

  lemma {:induction false} LeavingFault(history: seq<Input>, k: nat) returns (a: nat)
    requires k <= |history| && After(history[..k]).state == Fault
    requires After(history).state != Fault
    ensures k <= a < |history| && SafeAcknowledgement(history[a]) && After(history[..a]).state == Fault
    decreases |history|
  {
    assert history[..|history|] == history;
    var n := |history| - 1;
    var before := history[..n];
    if After(before).state == Fault {
      a := n;
    } else {
      assert before[..k] == history[..k];
      a := LeavingFault(before, k);
      assert before[..a] == history[..a];
    }
  }

  lemma {:induction false} ReachingReady(history: seq<Input>, k: nat) returns (a: nat, b: nat)
    requires k <= |history| && After(history[..k]).state == Fault
    requires After(history).state in {Ready, Align, Run}
    ensures k <= a < b < |history| && SafeAcknowledgement(history[a]) && SafeConfirmation(history[b])
    ensures After(history[..a]).state == Fault && After(history[..b]).state == Diagnostic
    decreases |history|
  {
    assert history[..|history|] == history;
    var n := |history| - 1;
    var before := history[..n];
    assert before[..k] == history[..k];
    InvariantsAlwaysHold(before);
    if After(before).state in {Ready, Align, Run} {
      a, b := ReachingReady(before, k);
      assert before[..b] == history[..b];
    } else {
      b := n;
      a := LeavingFault(before, k);
    }
    assert before[..a] == history[..a];
  }

  /**
   After the supervisor has been in FAULT at any point, an authorised bridge
   implies a safe acknowledgement taken in FAULT, a safe readiness confirmation
   taken in DIAGNOSTIC and a safe request taken in READY since then, in this
   order.
   */
  lemma RecoveryIsComplete(history: seq<Input>, k: nat) returns (a: nat, b: nat, c: nat)
    requires k <= |history| && After(history[..k]).state == Fault
    requires Authorized(After(history))
    ensures k <= a < b < c < |history|
    ensures SafeAcknowledgement(history[a]) && SafeConfirmation(history[b]) && SafeRequest(history[c])
    ensures After(history[..a]).state == Fault && After(history[..b]).state == Diagnostic
    ensures HeldSince(history, c)
  {
    hide Handle, Ends, Granted;
    c := AuthorizedHasGrant(history);
    if c < k {
      HeldPrefix(history, c, k);
      HeldGrantAuthorizes(history[..k], c);
      assert false;
    }
    assert history[..c][..k] == history[..k];
    a, b := ReachingReady(history[..c], k);
    assert history[..c][..a] == history[..a] && history[..c][..b] == history[..b];
  }

  lemma HeldPrefix(history: seq<Input>, c: nat, k: nat)
    requires c < k <= |history| && HeldSince(history, c)
    ensures HeldSince(history[..k], c)
  {
    assert history[..k][..c] == history[..c];
  }

  /** A detected fault, or a loss of readiness under authority, as the k-th event. */
  predicate FaultReportedAt(history: seq<Input>, k: nat) {
    && k < |history|
    && (|| history[k].event == FaultDetected
        || (history[k].event == ReadinessLost && Authorized(After(history[..k]))))
  }

  /** From any reported fault on, authorisation takes the whole recovery and a new request. */
  lemma RecoveryAfterReport(history: seq<Input>, k: nat) returns (a: nat, b: nat, c: nat)
    requires FaultReportedAt(history, k) && Authorized(After(history))
    ensures k < a < b < c < |history|
    ensures SafeAcknowledgement(history[a]) && SafeConfirmation(history[b]) && SafeRequest(history[c])
    ensures After(history[..a]).state == Fault && After(history[..b]).state == Diagnostic
    ensures HeldSince(history, c)
  {
    assert history[..k + 1][..k] == history[..k];
    assert After(history[..k + 1]).state == Fault;
    a, b, c := RecoveryIsComplete(history, k + 1);
  }

  // ---- every state, read off the events ----

  /** Nothing has happened that ends RESET_SAFE. */
  lemma {:induction false} ResetSafeIff(history: seq<Input>)
    ensures After(history).state == ResetSafe <==>
            forall i :: 0 <= i < |history| ==> history[i].event !in {PassiveInitComplete, FaultDetected}
  {
    if history != [] {
      var n := |history| - 1;
      InvariantsAlwaysHold(history[..n]);
      ResetSafeIff(history[..n]);
      assert forall i :: 0 <= i < n ==> history[..n][i] == history[i];
    }
  }

  /** A fault was reported as the k-th event and not safely acknowledged since. */
  predicate UnacknowledgedSince(history: seq<Input>, k: nat) {
    && FaultReportedAt(history, k)
    && forall j :: k < j < |history| ==> !SafeAcknowledgement(history[j])
  }

  lemma ReportedInPrefix(history: seq<Input>, k: nat)
    requires history != [] && k < |history| - 1
    ensures FaultReportedAt(history[..|history| - 1], k) <==> FaultReportedAt(history, k)
  {
    assert history[..|history| - 1][..k] == history[..k];
  }

  lemma {:induction false} UnacknowledgedIsFault(history: seq<Input>, k: nat)
    requires UnacknowledgedSince(history, k)
    ensures After(history).state == Fault
    decreases |history|
  {
    var n := |history| - 1;
    InvariantsAlwaysHold(history[..n]);
    if k < n {
      ReportedInPrefix(history, k);
      UnacknowledgedIsFault(history[..n], k);
    }
  }

  lemma {:induction false} FaultWasReported(history: seq<Input>) returns (k: nat)
    requires After(history).state == Fault
    ensures UnacknowledgedSince(history, k)
  {
    var n := |history| - 1;
    InvariantsAlwaysHold(history[..n]);
    if After(history[..n]).state == Fault && history[n].event != FaultDetected {
      k := FaultWasReported(history[..n]);
      ReportedInPrefix(history, k);
    } else {
      k := n;
    }
  }

  /**
   The supervisor is in FAULT exactly when a detected fault, or a loss of
   readiness under authority, has not been safely acknowledged since. A loss of
   readiness without authority is no fault.
   */
  lemma FaultIff(history: seq<Input>)
    ensures After(history).state == Fault <==> exists k: nat :: UnacknowledgedSince(history, k)
  {
    hide After, UnacknowledgedSince;
    if After(history).state == Fault {
      var k := FaultWasReported(history);
    }
    if k: nat :| UnacknowledgedSince(history, k) {
      UnacknowledgedIsFault(history, k);
    }
  }

  /** Readiness was safely confirmed in DIAGNOSTIC as the b-th event and neither lost nor overtaken by a fault since. */
  predicate ReadySince(history: seq<Input>, b: nat) {
    && b < |history| && SafeConfirmation(history[b]) && After(history[..b]).state == Diagnostic
    && forall j :: b < j < |history| ==> history[j].event !in {FaultDetected, ReadinessLost}
  }

  lemma {:induction false} ReadySinceIsOperational(history: seq<Input>, b: nat)
    requires ReadySince(history, b)
    ensures After(history).state in {Ready, Align, Run}
    decreases |history|
  {
    var n := |history| - 1;
    InvariantsAlwaysHold(history[..n]);
    if b < n {
      assert history[..n][..b] == history[..b];
      ReadySinceIsOperational(history[..n], b);
    }
  }

  lemma {:induction false} OperationalWasConfirmed(history: seq<Input>) returns (b: nat)
    requires After(history).state in {Ready, Align, Run}
    ensures ReadySince(history, b)
  {
    var n := |history| - 1;
    InvariantsAlwaysHold(history[..n]);
    if After(history[..n]).state in {Ready, Align, Run} {
      b := OperationalWasConfirmed(history[..n]);
      assert history[..n][..b] == history[..b];
    } else {
      b := n;
    }
  }

  /**
   The supervisor is READY or has given out authority exactly when readiness was
   safely confirmed in DIAGNOSTIC with neither a loss of readiness nor a fault
   since; which of the two, `AuthorizedIff` says.
   */
  lemma OperationalIff(history: seq<Input>)
    ensures After(history).state in {Ready, Align, Run} <==> exists b: nat :: ReadySince(history, b)
  {
    hide After, ReadySince;
    if After(history).state in {Ready, Align, Run} {
      var b := OperationalWasConfirmed(history);
    }
    if b: nat :| ReadySince(history, b) {
      ReadySinceIsOperational(history, b);
    }
  }

  /** What remains is DIAGNOSTIC: out of reset, no fault pending, readiness not confirmed. */
  lemma DiagnosticIff(history: seq<Input>)
    ensures After(history).state == Diagnostic <==>
            && (exists i :: 0 <= i < |history| && history[i].event in {PassiveInitComplete, FaultDetected})
            && (forall k: nat :: !UnacknowledgedSince(history, k))
            && (forall b: nat :: !ReadySince(history, b))
  {
    hide After, UnacknowledgedSince, ReadySince;
    ResetSafeIff(history);
    FaultIff(history);
    OperationalIff(history);
  }

  /** Lost readiness in READY leads back to DIAGNOSTIC and needs only a new confirmation. */
  lemma LostReadinessIsNoFault(history: seq<Input>, context: Context, again: Context)
    requires After(history).state == Ready && again.safeToEnergize
    ensures After(history + [Input(ReadinessLost, context)]).state == Diagnostic
    ensures After(history + [Input(ReadinessLost, context), Input(ReadinessConfirmed, again)]).state == Ready
  {
    var lost := history + [Input(ReadinessLost, context)];
    var back := history + [Input(ReadinessLost, context), Input(ReadinessConfirmed, again)];
    InvariantsAlwaysHold(history);
    assert lost[..|history|] == history && back[..|back| - 1] == lost;
  }

  // ---- acceptance ----

  /** The events the supervisor acts on in each state. */
  predicate Listed(state: State, e: Event, ctx: Context) {
    || e == FaultDetected
    || (state == ResetSafe && e == PassiveInitComplete)
    || (state == Diagnostic && e == ReadinessLost)
    || (state == Diagnostic && e == ReadinessConfirmed && ctx.safeToEnergize)
    || (state == Ready && e == ReadinessLost)
    || (state == Ready && e in {DiagnosticOperationRequested, AlignmentRequested, MotionRunRequested} && ctx.safeToEnergize)
    || (state in {Align, Run} && e in {ReadinessLost, AuthorityReleased})
    || (state == Align && e == AlignmentCompleted)
    || (state == Fault && e == FaultAcknowledged && ctx.safeToRecover)
  }

  /** Over any history an event is accepted exactly when it is listed for the state, and a refused one changes nothing. */
  lemma AcceptedIff(history: seq<Input>, e: Event, ctx: Context)
    ensures Accepts(After(history), e, ctx) <==> Listed(After(history).state, e, ctx)
    ensures !Listed(After(history).state, e, ctx) ==> After(history + [Input(e, ctx)]) == After(history)
  {
    InvariantsAlwaysHold(history);
    var longer := history + [Input(e, ctx)];
    assert longer[..|history|] == history;
    var s := After(history);
    assert After(longer) == Handle(s, e, ctx);
    AcceptedNow(s, e, ctx);
  }

  lemma AcceptedNow(s: Status, e: Event, ctx: Context)
    requires InvariantsHold(s)
    ensures Accepts(s, e, ctx) <==> Listed(s.state, e, ctx)
    ensures !Listed(s.state, e, ctx) ==> Handle(s, e, ctx) == s
  {}

  /** A status whose authority does not fit its state is answered with FAULT and a refusal, whatever the event. */
  lemma BrokenStatusFaults(s: Status, e: Event, ctx: Context)
    requires || (s.state in {ResetSafe, Diagnostic, Ready, Fault} && s.authority != NoAuthority)
             || (s.state == Align && s.authority != MotionAuthority)
             || (s.state == Run && s.authority == NoAuthority)
    ensures Handle(s, e, ctx) == Status(Fault, NoAuthority) && !Accepts(s, e, ctx) && !Authorized(s)
  {}
}
