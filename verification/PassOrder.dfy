/**
 The order of the blocks in a run of the drive: whatever is interleaved, the
 foreground executes whole passes, block after block as the source lists them.
 */
module PassOrder {
  import opened Foreground
  import opened RotorRuntime
  import opened Drive
  import opened DriveRuns

  datatype Block =
    | TakeEventsBlock
    | HandleEventsBlock
    | CommandsBlock
    | ButtonsBlock
    | AlignmentStopBlock
    | StartBlock(mode: Mode)
    | MotionStopBlock
    | RemoteBlock
    | RemoteCheckBlock
    | AdcSampleBlock
    | AdcLoopBlock
    | ReadinessBlock

  /** One pass of the loop in firmware/src/main.c. */
  const PASS: seq<Block> :=
    [TakeEventsBlock, HandleEventsBlock, CommandsBlock, ButtonsBlock,
     AlignmentStopBlock, StartBlock(Alignment), MotionStopBlock,
     StartBlock(Torque), StartBlock(Velocity), StartBlock(Position),
     RemoteBlock, RemoteCheckBlock, AdcSampleBlock, AdcLoopBlock, ReadinessBlock]

  /** How many blocks of the pass are behind a phase. */
  function Behind(p: Phase): nat {
    match p
    case Top => 0
    case EventsTaken => 1
    case Commands => 2
    case Recovering => 2
    case Buttons => 3
    case AlignmentStop => 4
    case Granting(m) => GrantPosition(m)
    case Requesting(m) => GrantPosition(m) + 1
    case MotionStop => 6
    case RemoteTurn => 10
    case RemoteCheck => 11
    case AdcSample => 12
    case AdcLoop => 13
    case ReadinessTurn => 14
  }

  function GrantPosition(m: Mode): nat {
    match m
    case Alignment => 5
    case Torque => 7
    case Velocity => 8
    case Position => 9
  }

  /** The block a step completes, if any: callbacks, commands and the second half of a start complete none. */
  function BlockOf(p: Phase, s: Step): seq<Block> {
    match s
    case Take(_) => [TakeEventsBlock]
    case HandleTaken => [HandleEventsBlock]
    case EndCommands(_) => [CommandsBlock]
    case Press(_) => [ButtonsBlock]
    case ServeAlignment => [AlignmentStopBlock]
    case GrantStart(_) => if p.Granting? then [StartBlock(p.mode)] else []
    case ServeMotion => [MotionStopBlock]
    case ServeRemote(_, _) => [RemoteBlock]
    case VerifyRemote(_) => [RemoteCheckBlock]
    case SampleAdc(_) => [AdcSampleBlock]
    case WatchLoop(_) => [AdcLoopBlock]
    case CheckReadiness(_, _, _) => [ReadinessBlock]
    case _ => []
  }

  ghost function Blocks(run: seq<Drive>, steps: seq<Step>, n: nat): seq<Block>
    requires n <= |steps| < |run|
  {
    if n == 0 then [] else Blocks(run, steps, n - 1) + BlockOf(run[n - 1].phase, steps[n - 1])
  }

  /** The passes completed by the first n steps. */
  function Passes(steps: seq<Step>, n: nat): nat
    requires n <= |steps|
  {
    if n == 0 then 0 else Passes(steps, n - 1) + Completes(steps[n - 1])
  }

  function Repeated(k: nat): seq<Block> {
    if k == 0 then [] else Repeated(k - 1) + PASS
  }

  /** A step that does not end the pass moves on by the block it completes. */
  lemma StepMovesOn(d: Drive, s: Step)
    requires Enabled(d, s) && !s.CheckReadiness?
    ensures Behind(Apply(d, s).phase) <= 14
    ensures Behind(Apply(d, s).phase) == Behind(d.phase) + |BlockOf(d.phase, s)|
    ensures |BlockOf(d.phase, s)| == 1 ==> Behind(d.phase) < 15 && PASS[Behind(d.phase)] == BlockOf(d.phase, s)[0]
  {
    hide CallbackStep, HandleEvents, Probe, FinishRecovery, Grant, GrantsStart, Requested, Remote, CheckRemote;
    hide FailDrive, FailStopped, AcceptStart, Queueing, StartAccepted;
  }

  lemma AtMostOne(p: Phase, s: Step)
    ensures |BlockOf(p, s)| <= 1
  {}

  lemma BehindBound(p: Phase)
    ensures Behind(p) <= |PASS|
  {}

  /** Whole passes and the beginning of the next up to a phase. */
  function Progress(k: nat, p: Phase): seq<Block> {
    BehindBound(p);
    Repeated(k) + PASS[..Behind(p)]
  }

  /** The passes a step completes. */
  function Completes(s: Step): nat {
    if s.CheckReadiness? then 1 else 0
  }

  lemma StepProgress(d: Drive, s: Step, k: nat)
    requires Enabled(d, s)
    ensures Progress(k + Completes(s), Apply(d, s).phase) == Progress(k, d.phase) + BlockOf(d.phase, s)
  {
    hide Enabled, Apply, Behind, BlockOf;
    BehindBound(d.phase);
    BehindBound(Apply(d, s).phase);
    if s.CheckReadiness? {
      PassEnds(d, s);
      Glued(Repeated(k), PASS[..14], BlockOf(d.phase, s));
    } else {
      AtMostOne(d.phase, s);
      StepMovesOn(d, s);
      Longer(Behind(d.phase), BlockOf(d.phase, s));
      Glued(Repeated(k), PASS[..Behind(d.phase)], BlockOf(d.phase, s));
    }
  }

  /** After any number of steps the foreground has done whole passes and a beginning of the next. */
  lemma {:induction false} BlocksInOrder(run: seq<Drive>, steps: seq<Step>, n: nat)
    requires DriveRun(run, steps) && n <= |steps|
    ensures Blocks(run, steps, n) == Progress(Passes(steps, n), run[n].phase)
  {
    hide Enabled, Apply, BlockOf, Progress;
    if n == 0 {
      NothingYet();
    } else {
      BlocksInOrder(run, steps, n - 1);
      assert Enabled(run[n - 1], steps[n - 1]);
      StepProgress(run[n - 1], steps[n - 1], Passes(steps, n - 1));
    }
  }

  lemma NothingYet()
    ensures Progress(0, BOOT.phase) == []
  {}

  lemma WholePass(k: nat)
    ensures Progress(k, Top) == Repeated(k)
  {}

  lemma PassEnds(d: Drive, s: Step)
    requires Enabled(d, s) && s.CheckReadiness?
    ensures Behind(d.phase) == 14 && Behind(Apply(d, s).phase) == 0
    ensures PASS[..14] + BlockOf(d.phase, s) == PASS
  {
    hide Readiness, ReadinessForcesFault;
    assert Apply(d, s).phase == Top;
  }

  lemma Glued(a: seq<Block>, b: seq<Block>, c: seq<Block>)
    ensures (a + b) + c == a + (b + c)
  {}

  lemma Longer(k: nat, b: seq<Block>)
    requires k + |b| <= 15 && |b| <= 1 && (|b| == 1 ==> k < 15 && PASS[k] == b[0])
    ensures PASS[..k] + b == PASS[..k + |b|]
  {}
}
