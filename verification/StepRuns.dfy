/**
 The step/direction decoder over runs of arbitrary samples from initialisation:
 enable line, position and rejected samples included. What the decoder should
 hold is read off the true samples alone.
 */
module StepRuns {
  import opened Words
  import opened Options
  import opened StepDirection

  /** One true sample: unbounded step count and microseconds, enable line, measured position. */
  datatype Sample = Sample(steps: int, time: nat, enable: bool, position: real)

  /** What the decoder is given of it. */
  function Reading(s: Sample): Input {
    Input(Signed32(Wrap(s.steps)), s.enable, Wrap(s.time), s.position)
  }

  // ---- what should happen ----

  /** A sample anchors the target: the first one, and every one at which the enable line is or was off. */
  predicate Anchoring(run: seq<Sample>, i: nat)
    requires i < |run|
  {
    i == 0 || !run[i - 1].enable || !run[i].enable
  }

  /** The last anchoring sample. */
  function Anchor(run: seq<Sample>): (a: nat)
    requires run != []
    ensures a < |run|
  {
    var n := |run| - 1;
    if Anchoring(run, n) then n else Anchor(run[..n])
  }

  /** Two samples are within the interval and the rate of the configuration. */
  predicate Within(c: Config, from: Sample, to: Sample) {
    && 0 < to.time - from.time <= c.maximumIntervalUs
    && Magnitude(to.steps - from.steps) as real <= c.maximumRate * ((to.time - from.time) as real * 0.000001) + 1.0
  }

  /** The last sample taken: anchoring, or within the limits of the last one taken. */
  function Taken(c: Config, run: seq<Sample>): (p: nat)
    requires run != []
    ensures p < |run|
  {
    var n := |run| - 1;
    if Anchoring(run, n) then n
    else
      var p := Taken(c, run[..n]);
      if Within(c, run[p], run[n]) then n else p
  }

  /** Every sample is less than 2^31 steps from and less than 2^32 us after the last one taken. */
  predicate Plausible(c: Config, run: seq<Sample>) {
    run != [] ==>
      var n := |run| - 1;
      && Plausible(c, run[..n])
      && (!Anchoring(run, n) ==>
            var p := Taken(c, run[..n]);
            && -TWO_31 < run[n].steps - run[p].steps < TWO_31
            && 0 <= run[n].time - run[p].time < TWO_32)
  }

  /** The position at the anchor plus the true steps since, in revolutions. */
  function ExpectedTarget(c: Config, run: seq<Sample>): real
    requires run != [] && ConfigValid(c)
  {
    var a, p := Anchor(run), Taken(c, run);
    run[a].position + (run[p].steps - run[a].steps) as real / c.stepsPerRevolution as real
  }

  function Expected(c: Config, run: seq<Sample>): Model
    requires run != [] && ConfigValid(c)
  {
    var p := Taken(c, run);
    Model(c, Signed32(Wrap(run[p].steps)), Wrap(run[p].time), ExpectedTarget(c, run), run[|run| - 1].enable, true)
  }

  /** What the last sample should be answered with. */
  function ExpectedReport(c: Config, run: seq<Sample>): Option<Output>
    requires run != [] && ConfigValid(c) && Plausible(c, run)
  {
    var n := |run| - 1;
    var s := run[n];
    if Anchoring(run, n) then
      Some(Output(if s.enable then Enabled else if n > 0 && run[n - 1].enable then Disabled else NoEvent, s.position, 0))
    else
      var p := Taken(c, run[..n]);
      if !Within(c, run[p], s) then None
      else
        var delta: int := s.steps - run[p].steps;
        Some(Output(if delta == 0 then NoEvent else TargetUpdated, ExpectedTarget(c, run), delta))
  }

  // ---- what does happen ----

  ghost function Fresh(c: Config): Model {
    Model(c, 0, 0, 0.0, false, false)
  }

  ghost function After(m: Model, run: seq<Sample>): Model
    decreases |run|
  {
    if run == [] then m else Next(After(m, run[..|run| - 1]), Reading(run[|run| - 1]))
  }

  /** Over a step sample the decoder accepts exactly what is within the limits, and finds the true change. */
  lemma StepSample(m: Model, c: Config, from: Sample, to: Sample)
    requires m.config == c && ConfigValid(c) && m.initialized && m.enabled && to.enable
    requires m.lastSteps == Signed32(Wrap(from.steps)) && m.lastTimestamp == Wrap(from.time)
    requires -TWO_31 < to.steps - from.steps < TWO_31 && 0 <= to.time - from.time < TWO_32
    ensures Accepts(m, Reading(to)) <==> Within(c, from, to)
    ensures Accepts(m, Reading(to)) ==> Delta(m, Reading(to)) == to.steps - from.steps
  {
    hide Wrap, Signed32, CumulativeDelta;
    TrueDelta(to.steps, from.steps);
    WrapDifference(to.time, from.time);
    SmallInterval(to.time - from.time);
  }

  lemma SmallInterval(x: int)
    requires 0 <= x < TWO_32
    ensures Wrap(x) == x
  {
    WrapUnique(x, x, 0);
  }

  /** The target moves on by the steps just taken. */
  lemma TargetMoves(anchor: int, last: int, now: int, position: real, perTurn: real)
    requires perTurn != 0.0
    ensures position + (last - anchor) as real / perTurn + (now - last) as real / perTurn
         == position + (now - anchor) as real / perTurn
  {
    FractionSplits((last - anchor) as real, (now - last) as real, perTurn);
  }

  lemma AnchorStays(c: Config, run: seq<Sample>)
    requires |run| > 1 && !Anchoring(run, |run| - 1)
    ensures
      var before := run[..|run| - 1];
      && Anchor(run) == Anchor(before) && run[Anchor(run)] == before[Anchor(before)]
      && run[Taken(c, before)] == before[Taken(c, before)]
  {}

  lemma NoSteps(position: real, perTurn: real)
    requires perTurn != 0.0
    ensures position + 0 as real / perTurn == position
  {}

  /** One more sample: the decoder holds and reports what it should. */
  lemma FollowsStep(c: Config, run: seq<Sample>, m: Model)
    requires ConfigValid(c) && run != [] && Plausible(c, run)
    requires |run| == 1 ==> m == Fresh(c)
    requires |run| > 1 ==> m == Expected(c, run[..|run| - 1])
    ensures Next(m, Reading(run[|run| - 1])) == Expected(c, run)
    ensures Report(m, Reading(run[|run| - 1])) == ExpectedReport(c, run)
  {
    var n := |run| - 1;
    if Anchoring(run, n) {
      AnchorStep(c, run, m);
    } else {
      FollowStep(c, run, m);
    }
  }

  lemma AnchorStep(c: Config, run: seq<Sample>, m: Model)
    requires ConfigValid(c) && run != [] && Plausible(c, run) && Anchoring(run, |run| - 1)
    requires |run| == 1 ==> m == Fresh(c)
    requires |run| > 1 ==> m == Expected(c, run[..|run| - 1])
    ensures Next(m, Reading(run[|run| - 1])) == Expected(c, run)
    ensures Report(m, Reading(run[|run| - 1])) == ExpectedReport(c, run)
  {
    hide Wrap, Signed32, Accepts, Plausible;
    var n := |run| - 1;
    assert Taken(c, run) == n && Anchor(run) == n;
    NoSteps(run[n].position, c.stepsPerRevolution as real);
    assert Anchors(m, Reading(run[n]));
  }

  lemma FollowStep(c: Config, run: seq<Sample>, m: Model)
    requires ConfigValid(c) && |run| > 1 && Plausible(c, run) && !Anchoring(run, |run| - 1)
    requires m == Expected(c, run[..|run| - 1])
    ensures Next(m, Reading(run[|run| - 1])) == Expected(c, run)
    ensures Report(m, Reading(run[|run| - 1])) == ExpectedReport(c, run)
  {
    hide Wrap, Signed32, Accepts, Within;
    var n := |run| - 1;
    var before := run[..n];
    var p := Taken(c, before);
    AnchorStays(c, run);
    StepSample(m, c, run[p], run[n]);
    var a := Anchor(run);
    TargetMoves(run[a].steps, run[p].steps, run[n].steps, run[a].position, c.stepsPerRevolution as real);
    assert !Anchors(m, Reading(run[n]));
    assert Taken(c, run) == if Within(c, run[p], run[n]) then n else p;
  }

  /**
   After any plausible run from initialisation the decoder holds the position
   at the last anchoring sample plus the true steps taken since, in
   revolutions, and is anchored at the last sample taken.
   */
  lemma {:induction false} DecoderFollows(c: Config, run: seq<Sample>)
    requires ConfigValid(c) && run != [] && Plausible(c, run)
    ensures After(Fresh(c), run) == Expected(c, run)
    ensures Report(After(Fresh(c), run[..|run| - 1]), Reading(run[|run| - 1])) == ExpectedReport(c, run)
    decreases |run|
  {
    hide Expected, ExpectedReport, Next, Report, Anchoring;
    var n := |run| - 1;
    if n > 0 {
      DecoderFollows(c, run[..n]);
    }
    FollowsStep(c, run, After(Fresh(c), run[..n]));
  }

  /** An anchoring sample reports no steps and the measured position itself. */
  lemma AnchorReport(c: Config, run: seq<Sample>)
    requires ConfigValid(c) && run != [] && Plausible(c, run) && Anchoring(run, |run| - 1)
    ensures
      var m := After(Fresh(c), run);
      && m.target == run[|run| - 1].position
      && Anchored(m, Truth(run[|run| - 1].steps, run[|run| - 1].time))
    ensures
      var r := Report(After(Fresh(c), run[..|run| - 1]), Reading(run[|run| - 1]));
      r.Some? && r.value.delta == 0 && r.value.target == run[|run| - 1].position
  {
    hide Next, Report, Wrap, Signed32;
    DecoderFollows(c, run);
    NoSteps(run[|run| - 1].position, c.stepsPerRevolution as real);
  }

  /** A run that ends enabled leaves the decoder following from the last sample taken, as `StepConservation` needs. */
  lemma RunLeavesFollowing(c: Config, run: seq<Sample>)
    requires ConfigValid(c) && run != [] && Plausible(c, run) && run[|run| - 1].enable
    ensures
      var m, last := After(Fresh(c), run), run[Taken(c, run)];
      Following(m) && Anchored(m, Truth(last.steps, last.time))
  {
    hide Next, Wrap, Signed32;
    DecoderFollows(c, run);
  }

  /** The deltas reported since the last anchor; a rejected sample reports none. */
  ghost function ReportedSince(c: Config, run: seq<Sample>): int
    requires ConfigValid(c)
    decreases |run|
  {
    if run == [] || Anchoring(run, |run| - 1) then 0
    else
      var before := run[..|run| - 1];
      ReportedSince(c, before)
      + (match Report(After(Fresh(c), before), Reading(run[|run| - 1])) case Some(o) => o.delta case None => 0)
  }

  /** Conservation from initialisation: since the anchor, the reported deltas sum to the true steps taken. */
  lemma {:induction false} ReportedIsTrue(c: Config, run: seq<Sample>)
    requires ConfigValid(c) && run != [] && Plausible(c, run)
    ensures ReportedSince(c, run) == run[Taken(c, run)].steps - run[Anchor(run)].steps
    decreases |run|
  {
    hide Next, Report, After, Within;
    var n := |run| - 1;
    if !Anchoring(run, n) {
      var before := run[..n];
      ReportedIsTrue(c, before);
      DecoderFollows(c, run);
      AnchorStays(c, run);
    }
  }

  /** The decoder object over a run: what it holds and answers at every sample. */
  method Follow(c: Config, run: seq<Sample>) returns (d: Decoder, answers: seq<Option<Output>>)
    requires ConfigValid(c) && Plausible(c, run)
    ensures |answers| == |run|
    ensures run != [] ==> d.State() == Expected(c, run)
    ensures forall i :: 0 < i <= |run| ==> Plausible(c, run[..i]) && answers[i - 1] == ExpectedReport(c, run[..i])
  {
    hide Next, Report, Expected, ExpectedReport, Plausible;
    d := new Decoder(c);
    answers := [];
    for n := 0 to |run|
      invariant fresh(d) && d.State() == After(Fresh(c), run[..n])
      invariant |answers| == n
      invariant forall i :: 0 < i <= n ==> Plausible(c, run[..i]) && answers[i - 1] == ExpectedReport(c, run[..i])
    {
      var s := run[n];
      PlausiblePrefix(c, run, n + 1);
      ghost var longer := run[..n + 1];
      assert longer[..n] == run[..n] && longer[n] == s;
      DecoderFollows(c, longer);
      var r := d.Update(Signed32(Wrap(s.steps)), s.enable, Wrap(s.time), s.position);
      answers := answers + [r];
    }
    assert run[..|run|] == run;
    if run != [] {
      DecoderFollows(c, run);
    }
  }

  lemma {:induction false} PlausiblePrefix(c: Config, run: seq<Sample>, n: nat)
    requires Plausible(c, run) && n <= |run|
    ensures Plausible(c, run[..n])
    decreases |run|
  {
    if n == |run| {
      assert run[..n] == run;
    } else {
      var k := |run| - 1;
      PlausiblePrefix(c, run[..k], n);
      assert run[..k][..n] == run[..n];
    }
  }
}
