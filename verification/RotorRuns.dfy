/**
 Whole runs of the rotor-control runtime: any sequence of callbacks and
 foreground operations.
 */
module RotorRuns {
  import opened RotorRuntime

  ghost predicate RotorRun(run: seq<RotorView>, ops: seq<RotorOp>) {
    && |run| == |ops| + 1
    && MailboxValid(run[0])
    && forall i {:trigger ops[i]} :: 0 <= i < |ops| ==> RotorStep(run[i], ops[i], run[i + 1])
  }

  lemma StepKeepsMailbox(v: RotorView, op: RotorOp, w: RotorView)
    requires MailboxValid(v) && RotorStep(v, op, w)
    ensures MailboxValid(w)
  {
    if op.RequestStop? {
      assert Stop in w.requests;
    } else if StartAccepted(v, op) {
      assert Start(op.mode) in w.requests;
    }
  }

  lemma {:induction false} MailboxAlwaysValid(run: seq<RotorView>, ops: seq<RotorOp>, n: nat)
    requires RotorRun(run, ops) && n <= |ops|
    ensures MailboxValid(run[n])
  {
    hide MailboxValid, RotorStep;
    if n > 0 {
      MailboxAlwaysValid(run, ops, n - 1);
      StepKeepsMailbox(run[n - 1], ops[n - 1], run[n]);
    }
  }

  /** The operations that take a request out of the mailbox without putting one in. */
  predicate Consumes(op: RotorOp) {
    op.Callback? || op.ForceFault? || op == ClearFaults(true)
  }

  /** A queued STOP cannot be replaced, only consumed. */
  lemma {:induction false} StopStaysQueued(run: seq<RotorView>, ops: seq<RotorOp>, i: nat, n: nat)
    requires RotorRun(run, ops) && i <= n <= |ops|
    requires Stop in run[i].requests
    requires forall k :: i <= k < n ==> !Consumes(ops[k])
    ensures Stop in run[n].requests
  {
    hide MailboxValid, CallbackStep;
    if i < n {
      StopStaysQueued(run, ops, i, n - 1);
      assert RotorStep(run[n - 1], ops[n - 1], run[n]);
    }
  }

  /** The callback that finds STOP ends idle and reports it. */
  lemma {:induction false} StopDominates(run: seq<RotorView>, ops: seq<RotorOp>, i: nat, n: nat)
    requires RotorRun(run, ops) && i <= n < |ops|
    requires Stop in run[i].requests && ops[n].Callback?
    requires forall k :: i <= k < n ==> !Consumes(ops[k])
    ensures run[n + 1].live == Idle && run[n + 1].requests == {}
    ensures Released in run[n + 1].events || Fault in run[n + 1].events
  {
    StopStaysQueued(run, ops, i, n);
    assert RotorStep(run[n], ops[n], run[n + 1]);
  }

  /** Only a callback with a matching queued start brings a cascade to life. */
  lemma ComingAlive(v: RotorView, op: RotorOp, w: RotorView)
    requires RotorStep(v, op, w) && v.live == Idle && w.live != Idle
    ensures op == Callback(true) && Start(w.live.mode) in v.requests && Stop !in v.requests
  {}

  /** A queued start was put there by an accepted request and left alone since. */
  predicate QueuedSince(run: seq<RotorView>, ops: seq<RotorOp>, j: nat, n: nat, m: Mode)
    requires |run| == |ops| + 1
  {
    && j < n <= |ops|
    && StartAccepted(run[j], ops[j]) && ops[j].mode == m
    && forall k :: j < k < n ==> !Consumes(ops[k]) && !ops[k].RequestStop?
  }

  lemma StepToQueued(v: RotorView, op: RotorOp, w: RotorView, m: Mode)
    requires MailboxValid(v) && RotorStep(v, op, w) && Start(m) in w.requests
    ensures (StartAccepted(v, op) && op.mode == m) || (Start(m) in v.requests && !Consumes(op) && !op.RequestStop?)
  {}

  /**
   When STOP is queued at i, a start that is queued later on was accepted after
   that STOP had been consumed.
   */
  lemma {:induction false} QueuedAfterStop(run: seq<RotorView>, ops: seq<RotorOp>, i: nat, n: nat, m: Mode)
    returns (c: nat, j: nat)
    requires RotorRun(run, ops) && i <= n <= |ops|
    requires Stop in run[i].requests && Start(m) in run[n].requests
    ensures i <= c < j < n && Consumes(ops[c]) && QueuedSince(run, ops, j, n, m)
  {
    hide MailboxValid, RotorStep, Consumes;
    MailboxAlwaysValid(run, ops, n);
    OneRequest(run[n], m);
    assert i < n;
    MailboxAlwaysValid(run, ops, n - 1);
    assert RotorStep(run[n - 1], ops[n - 1], run[n]);
    StepToQueued(run[n - 1], ops[n - 1], run[n], m);
    if StartAccepted(run[n - 1], ops[n - 1]) && ops[n - 1].mode == m {
      j := n - 1;
      c := ConsumedBefore(run, ops, i, j);
    } else {
      c, j := QueuedAfterStop(run, ops, i, n - 1, m);
    }
  }

  lemma OneRequest(v: RotorView, m: Mode)
    requires MailboxValid(v) && Start(m) in v.requests
    ensures Stop !in v.requests
  {}

  lemma ConsumedBefore(run: seq<RotorView>, ops: seq<RotorOp>, i: nat, j: nat) returns (c: nat)
    requires RotorRun(run, ops) && i <= j < |ops|
    requires Stop in run[i].requests && StartAccepted(run[j], ops[j])
    ensures i <= c < j && Consumes(ops[c])
  {
    hide MailboxValid, RotorStep, Consumes;
    if forall k :: i <= k < j ==> !Consumes(ops[k]) {
      StopStaysQueued(run, ops, i, j);
      assert false;
    }
    c :| i <= c < j && Consumes(ops[c]);
  }

  /**
   A start queued before STOP never runs: whatever comes alive after STOP was
   queued at i does so on a request accepted after that STOP was consumed.
   */
  lemma EarlierStartNeverRuns(run: seq<RotorView>, ops: seq<RotorOp>, i: nat, n: nat)
    returns (c: nat, j: nat)
    requires RotorRun(run, ops) && i <= n < |ops|
    requires Stop in run[i].requests
    requires run[n].live == Idle && run[n + 1].live != Idle
    ensures i <= c < j < n && Consumes(ops[c])
    ensures QueuedSince(run, ops, j, n, run[n + 1].live.mode)
  {
    hide MailboxValid, RotorStep;
    assert RotorStep(run[n], ops[n], run[n + 1]);
    ComingAlive(run[n], ops[n], run[n + 1]);
    c, j := QueuedAfterStop(run, ops, i, n, run[n + 1].live.mode);
  }

  // ---- feedback ----

  /** A callback without a valid sample leaves nothing live, and what it ended is a fault. */
  lemma NoFeedbackNothingLive(run: seq<RotorView>, ops: seq<RotorOp>, n: nat)
    requires RotorRun(run, ops) && n < |ops| && ops[n] == Callback(false)
    ensures run[n + 1].live == Idle && run[n + 1].requests == {}
    ensures run[n].live != Idle ==> Fault in run[n + 1].events
    ensures StartQueued(run[n]) ==> Fault in run[n + 1].events
  {
    hide MailboxValid;
    MailboxAlwaysValid(run, ops, n);
    assert RotorStep(run[n], ops[n], run[n + 1]);
    if StartQueued(run[n]) {
      QueuedIsNoStop(run[n]);
    }
  }

  lemma QueuedIsNoStop(v: RotorView)
    requires MailboxValid(v) && StartQueued(v)
    ensures Stop !in v.requests
  {}

  lemma {:induction false} StaysIdle(run: seq<RotorView>, ops: seq<RotorOp>, i: nat, n: nat)
    requires RotorRun(run, ops) && i <= n <= |ops| && run[i].live == Idle
    requires forall k :: i <= k < n ==> !ops[k].Callback?
    ensures run[n].live == Idle
  {
    hide MailboxValid, CallbackStep;
    if i < n {
      StaysIdle(run, ops, i, n - 1);
      assert RotorStep(run[n - 1], ops[n - 1], run[n]);
    }
  }

  /** Whatever is live was driven on a valid sample by the last callback before. */
  lemma LiveHadFeedback(run: seq<RotorView>, ops: seq<RotorOp>, i: nat, n: nat)
    requires RotorRun(run, ops) && i < n <= |ops| && run[n].live != Idle
    requires ops[i].Callback? && forall k :: i < k < n ==> !ops[k].Callback?
    ensures ops[i].sampleValid
  {
    hide MailboxValid, RotorStep;
    if !ops[i].sampleValid {
      NoFeedbackNothingLive(run, ops, i);
      StaysIdle(run, ops, i + 1, n);
    }
  }
}
