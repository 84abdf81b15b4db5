/**
 STOP over whole runs of the drive: what is proved of the runtime alone holds
 between the blocks of the foreground.
 */
module DriveStops {
  import opened Foreground
  import S = Supervisor
  import opened RotorRuntime
  import opened RotorRuns
  import opened Drive
  import opened DriveRuns
  import opened PassOrder
  import opened MailboxRuns

  /** The runtime's view of a run of the drive. */
  ghost function Views(run: seq<Drive>): (views: seq<RotorView>)
    ensures |views| == |run|
    ensures forall i :: 0 <= i < |run| ==> views[i] == run[i].rotor
  {
    seq(|run|, i requires 0 <= i < |run| => run[i].rotor)
  }

  ghost predicate Performs(run: seq<Drive>, steps: seq<Step>, ops: seq<RotorOp>) {
    && DriveRun(run, steps)
    && |ops| == |steps|
    && forall i {:trigger ops[i]} :: 0 <= i < |ops| ==> Enabled(run[i], steps[i]) && ops[i] == OpOf(run[i], steps[i])
  }

  /** A run of the drive is a run of the runtime. */
  lemma {:induction false} RotorPart(run: seq<Drive>, steps: seq<Step>) returns (ops: seq<RotorOp>)
    requires DriveRun(run, steps)
    ensures Performs(run, steps, ops) && RotorRun(Views(run), ops)
  {
    hide Enabled, Apply, OpOf, RotorStep;
    ops := Operations(run, steps, |steps|);
    var views := Views(run);
    assert MailboxValid(BOOT.rotor);
    forall i | 0 <= i < |ops| ensures RotorStep(views[i], ops[i], views[i + 1]) {
      assert steps[i] == steps[i] && ops[i] == OpOf(run[i], steps[i]);
      StepIsRotorStep(run[i], steps[i]);
    }
  }

  lemma {:induction false} Operations(run: seq<Drive>, steps: seq<Step>, n: nat) returns (ops: seq<RotorOp>)
    requires DriveRun(run, steps) && n <= |steps|
    ensures |ops| == n
    ensures forall i {:trigger ops[i]} :: 0 <= i < n ==> Enabled(run[i], steps[i]) && ops[i] == OpOf(run[i], steps[i])
  {
    hide Enabled, Apply, OpOf;
    if n == 0 {
      ops := [];
    } else {
      ops := Operations(run, steps, n - 1);
      assert Enabled(run[n - 1], steps[n - 1]);
      ops := ops + [OpOf(run[n - 1], steps[n - 1])];
    }
  }

  /** The step empties the runtime's mailbox: a callback, a forced fault or a recovery. */
  predicate Empties(d: Drive, s: Step)
    requires Enabled(d, s)
  {
    Consumes(OpOf(d, s))
  }

  /**
   Once STOP is queued, the next callback ends with nothing live and a release
   or a fault to read, unless a forced fault or a recovery ended it before.
   */
  lemma StopEndsMotion(run: seq<Drive>, steps: seq<Step>, i: nat, n: nat)
    requires DriveRun(run, steps) && i <= n < |steps|
    requires Stop in run[i].rotor.requests && steps[n].Interrupt?
    requires forall k :: i <= k < n ==> Enabled(run[k], steps[k]) && !Empties(run[k], steps[k])
    ensures run[n + 1].rotor.live == Idle && run[n + 1].rotor.requests == {}
    ensures Released in run[n + 1].rotor.events || Fault in run[n + 1].rotor.events
  {
    hide DriveRun, RotorRun, Enabled, Apply;
    var ops := RotorPart(run, steps);
    var views := Views(run);
    SameLengths(run, steps);
    var op := ops[n];
    assert Enabled(run[n], steps[n]) && op == OpOf(run[n], steps[n]);
    forall k | i <= k < n ensures !Consumes(ops[k]) {
      assert ops[k] == OpOf(run[k], steps[k]);
      assert !Empties(run[k], steps[k]);
    }
    assert views[i] == run[i].rotor && views[n + 1] == run[n + 1].rotor;
    StopDominates(views, ops, i, n);
  }

  lemma SameLengths(run: seq<Drive>, steps: seq<Step>)
    requires DriveRun(run, steps)
    ensures |run| == |steps| + 1
  {}

  /**
   Whatever comes alive after STOP was queued was requested by a grant block
   after that STOP had been taken out of the mailbox.
   */
  lemma StopOutlivesStart(run: seq<Drive>, steps: seq<Step>, i: nat, n: nat) returns (c: nat, j: nat)
    requires DriveRun(run, steps) && i <= n < |steps|
    requires Stop in run[i].rotor.requests
    requires run[n].rotor.live == Idle && run[n + 1].rotor.live != Idle
    ensures i <= c < j < n
    ensures Enabled(run[c], steps[c]) && Empties(run[c], steps[c])
    ensures steps[j].QueueStart? && run[j].phase == Requesting(run[n + 1].rotor.live.mode)
  {
    hide DriveRun, RotorRun, Enabled, Apply;
    var ops := RotorPart(run, steps);
    var views := Views(run);
    SameLengths(run, steps);
    assert views[i] == run[i].rotor && views[n] == run[n].rotor && views[n + 1] == run[n + 1].rotor;
    c, j := EarlierStartNeverRuns(views, ops, i, n);
    assert ops[c] == OpOf(run[c], steps[c]) && ops[j] == OpOf(run[j], steps[j]);
    StartsAreQueued(run[j], steps[j]);
  }

  lemma StartsAreQueued(d: Drive, s: Step)
    requires Enabled(d, s) && OpOf(d, s).RequestStart?
    ensures s.QueueStart? && d.phase == Requesting(OpOf(d, s).mode)
  {}

  /** In every run of the drive, whatever is live had a valid sample at the last callback. */
  lemma LiveHadSample(run: seq<Drive>, steps: seq<Step>, i: nat, n: nat)
    requires DriveRun(run, steps) && i < n <= |steps| && run[n].rotor.live != Idle
    requires steps[i].Interrupt? && forall k :: i < k < n ==> !steps[k].Interrupt?
    ensures steps[i].sampleValid
  {
    hide RotorRun, Enabled, Apply;
    var ops := RotorPart(run, steps);
    var views := Views(run);
    var op := ops[i];
    assert Enabled(run[i], steps[i]) && op == OpOf(run[i], steps[i]);
    forall k | i < k < n ensures !ops[k].Callback? {
      var other := ops[k];
      assert Enabled(run[k], steps[k]) && other == OpOf(run[k], steps[k]);
      OnlyInterruptsCallBack(run[k], steps[k]);
    }
    assert views[n] == run[n].rotor;
    LiveHadFeedback(views, ops, i, n);
  }

  lemma OnlyInterruptsCallBack(d: Drive, s: Step)
    requires Enabled(d, s)
    ensures OpOf(d, s).Callback? <==> s.Interrupt?
  {}

  /** A callback without a valid sample ends whatever is live or queued in a fault. */
  lemma LostFeedbackEndsMotion(run: seq<Drive>, steps: seq<Step>, n: nat)
    requires DriveRun(run, steps) && n < |steps| && steps[n].Interrupt? && !steps[n].sampleValid
    ensures run[n + 1].rotor.live == Idle && run[n + 1].rotor.requests == {}
    ensures run[n].rotor.live != Idle || StartQueued(run[n].rotor) ==> Fault in run[n + 1].rotor.events
  {
    hide RotorRun, Enabled, Apply;
    var ops := RotorPart(run, steps);
    var views := Views(run);
    var op := ops[n];
    assert Enabled(run[n], steps[n]) && op == OpOf(run[n], steps[n]);
    assert views[n] == run[n].rotor && views[n + 1] == run[n + 1].rotor;
    NoFeedbackNothingLive(views, ops, n);
  }

  // ---- a stop reaches the runtime in the pass that finds it ----

  /** How many blocks are behind the one that serves a motor stop. */
  function ServedAt(m: Mode): nat {
    if m == Alignment then 4 else 6
  }

  /** The step serves the stop of this mode. */
  predicate Serves(s: Step, m: Mode) {
    if m == Alignment then s.ServeAlignment? else s.ServeMotion?
  }

  /** The phase lies between the commands and the block that serves the stop. */
  predicate Waiting(p: Phase, m: Mode) {
    2 <= Behind(p) <= ServedAt(m) && p != Recovering
  }

  lemma ServedStop(d: Drive, s: Step, m: Mode)
    requires Enabled(d, s) && Motor(m) in d.desk.stops && Serves(s, m)
    ensures Apply(d, s).rotor.requests == {Stop} && Motor(m) !in Apply(d, s).desk.starts
  {
    if s.ServeMotion? {
      MotionStopIsDue(d.desk, m);
    }
    hide MotionStopDue;
  }

  /** Commands other than a recovery leave a pending stop alone. */
  lemma StopWaitsForCommands(d: Drive, s: Step, m: Mode)
    requires Enabled(d, s) && Motor(m) in d.desk.stops && Waiting(d.phase, m)
    requires s.StartCommand? || s.ProbeCommand? || s.StopCommand? || s.EndCommands? || s.Press? || s.Interrupt?
    ensures Motor(m) in Apply(d, s).desk.stops && Waiting(Apply(d, s).phase, m)
  {
    hide CallbackStep, S.Handle, S.Accepts, Inform, Demand, Fail;
    EveryMailbox(Motor(m));
  }

  /** The alignment blocks leave a pending motion stop alone. */
  lemma StopWaitsForAlignment(d: Drive, s: Step, m: Mode)
    requires Enabled(d, s) && Motor(m) in d.desk.stops && Waiting(d.phase, m) && !Serves(s, m)
    requires s.ServeAlignment? || s.GrantStart? || s.QueueStart?
    ensures Motor(m) in Apply(d, s).desk.stops && Waiting(Apply(d, s).phase, m)
  {
    hide Grant, GrantsStart, Requested, Queueing, StartAccepted;
    if s.GrantStart? {
      GrantTame(d.desk, d.phase.mode, s.safe, true);
    } else if s.QueueStart? {
      GrantTame(d.desk, d.phase.mode, true, StartAccepted(d.rotor, RequestStart(d.phase.mode, s.valid)));
    }
  }

  lemma StepsWhileWaiting(d: Drive, s: Step, m: Mode)
    requires Enabled(d, s) && Waiting(d.phase, m) && !s.ClearFaultsCommand?
    ensures
      || Serves(s, m)
      || s.StartCommand? || s.ProbeCommand? || s.StopCommand? || s.EndCommands? || s.Press? || s.Interrupt?
      || s.ServeAlignment? || s.GrantStart? || s.QueueStart?
  {
    hide CallbackStep;
  }

  /** A pending stop is served, or stays pending until the serving block. */
  lemma StopWaits(d: Drive, s: Step, m: Mode)
    requires Enabled(d, s) && Motor(m) in d.desk.stops && Waiting(d.phase, m) && !s.ClearFaultsCommand?
    ensures Serves(s, m) ==> Apply(d, s).rotor.requests == {Stop} && Motor(m) !in Apply(d, s).desk.starts
    ensures !Serves(s, m) ==> Motor(m) in Apply(d, s).desk.stops && Waiting(Apply(d, s).phase, m)
  {
    hide Enabled, Apply, Waiting, Serves;
    StepsWhileWaiting(d, s, m);
    if Serves(s, m) {
      ServedStop(d, s, m);
    } else if s.ServeAlignment? || s.GrantStart? || s.QueueStart? {
      StopWaitsForAlignment(d, s, m);
    } else {
      StopWaitsForCommands(d, s, m);
    }
  }

  lemma MotionStopIsDue(d: Desk, m: Mode)
    requires Motor(m) in d.stops && m != Alignment
    ensures MotionStopDue(d) && Motor(m) in MOTIONS
  {
    assert m.Torque? || m.Velocity? || m.Position?;
  }

  /**
   A motor stop that is pending between the commands and its block is handed to
   the runtime in the same pass, unless a recovery withdraws everything first.
   */
  lemma {:induction false} StopIsServed(run: seq<Drive>, steps: seq<Step>, i: nat, n: nat, m: Mode) returns (k: nat)
    requires DriveRun(run, steps) && i <= n <= |steps|
    requires Motor(m) in run[i].desk.stops && Waiting(run[i].phase, m)
    requires !Waiting(run[n].phase, m)
    requires forall j :: i <= j < n ==> !steps[j].ClearFaultsCommand?
    ensures i <= k < n && Serves(steps[k], m)
    ensures run[k + 1].rotor.requests == {Stop} && Motor(m) !in run[k + 1].desk.starts
    decreases n - i
  {
    hide Enabled, Apply, Waiting;
    var d, s := run[i], steps[i];
    assert Enabled(d, s) && run[i + 1] == Apply(d, s);
    StopWaits(d, s, m);
    if Serves(s, m) {
      k := i;
    } else {
      k := StopIsServed(run, steps, i + 1, n, m);
    }
  }

  /** A STOP command, and the loss of the link, raise every stop; no start survives the command. */
  lemma StopsAreRaised(run: seq<Drive>, steps: seq<Step>, n: nat, x: Mailbox)
    requires DriveRun(run, steps) && n < |steps|
    requires steps[n].StopCommand? || (steps[n].EndCommands? && steps[n].linkLost) || (steps[n].Press? && x in steps[n].pressed)
    ensures x in run[n + 1].desk.stops
    ensures steps[n].StopCommand? ==> run[n + 1].desk.starts == {}
  {
    assert Enabled(run[n], steps[n]) && run[n + 1] == Apply(run[n], steps[n]);
    EveryMailbox(x);
  }
}
