/**
 The step/direction decoder of firmware/src/app/step_direction.c. Floats are
 exact reals, so a finite target is always finite.
 */
module StepDirection {
  import opened Words
  import opened Options

  datatype Event = NoEvent | Enabled | Disabled | TargetUpdated
  datatype Config = Config(stepsPerRevolution: uint32, maximumIntervalUs: uint32, maximumRate: real)
  datatype Output = Output(event: Event, target: real, delta: int32)

  predicate ConfigValid(c: Config) {
    c.stepsPerRevolution != 0 && c.maximumIntervalUs != 0 && c.maximumRate > 0.0
  }

  /** `cumulative_delta`: the signed change of a wrapping 32-bit step counter. */
  function CumulativeDelta(current: int32, previous: int32): (r: Option<int32>)
    ensures r.None? <==> Wrap(current - previous) == TWO_31
    ensures r.Some? ==> Wrap(previous + r.value) == Wrap(current)
  {
    var raw := Wrap(Wrap(current) - Wrap(previous));
    WrapDifference(current, previous);
    if raw < TWO_31 then
      DeltaClosesGap(current, previous, raw);
      Some(raw)
    else if raw == TWO_31 then
      None
    else
      var back: int := Wrap(0 - raw);
      WrapUnique(0 - raw, TWO_32 - raw, -1);
      WrapUnique(-back, raw, -1);
      DeltaClosesGap(current, previous, -back);
      Some(-back)
  }

  lemma DeltaClosesGap(current: int, previous: int, delta: int)
    requires Wrap(delta) == Wrap(current - previous)
    ensures Wrap(previous + delta) == Wrap(current)
  {
    WrapSum(delta, previous);
    WrapSum(current - previous, previous);
  }

  /** How many steps the configured rate allows in an interval. */
  function Allowance(c: Config, elapsedUs: int): real {
    c.maximumRate * (elapsedUs as real * 0.000001) + 1.0
  }

  class Decoder {
    const config: Config
    var lastSteps: int32
    var lastTimestamp: uint32
    var target: real
    var enabled: bool
    var initialized: bool

    constructor (config: Config)
      ensures State() == Model(config, 0, 0, 0.0, false, false)
    {
      this.config := config;
      lastSteps, lastTimestamp, target, enabled, initialized := 0, 0, 0.0, false, false;
    }

    ghost function State(): Model
      reads this
    {
      Model(config, lastSteps, lastTimestamp, target, enabled, initialized)
    }

    /** `step_direction_update`: None is a rejection. */
    method Update(steps: int32, enable: bool, timestamp: uint32, position: real) returns (r: Option<Output>)
      modifies this
      ensures State() == Next(old(State()), Input(steps, enable, timestamp, position))
      ensures r == Report(old(State()), Input(steps, enable, timestamp, position))
      ensures r.None? ==> State() == old(State())
    {
      if !ConfigValid(config) {
        return None;
      }
      if !initialized {
        lastSteps, lastTimestamp, target := steps, timestamp, position;
        enabled, initialized := enable, true;
        return Some(Output(if enable then Enabled else NoEvent, target, 0));
      }
      if enable != enabled {
        lastSteps, lastTimestamp, target, enabled := steps, timestamp, position, enable;
        return Some(Output(if enable then Enabled else Disabled, target, 0));
      }
      if !enable {
        lastSteps, lastTimestamp, target := steps, timestamp, position;
        return Some(Output(NoEvent, target, 0));
      }
      var elapsed := Wrap(timestamp - lastTimestamp);
      if elapsed == 0 || elapsed > config.maximumIntervalUs {
        return None;
      }
      var delta := CumulativeDelta(steps, lastSteps);
      if delta.None? {
        return None;
      }
      if Magnitude(delta.value) as real > Allowance(config, elapsed) {
        return None;
      }
      target := target + delta.value as real / config.stepsPerRevolution as real;
      lastSteps, lastTimestamp := steps, timestamp;
      return Some(Output(if delta.value == 0 then NoEvent else TargetUpdated, target, delta.value));
    }
  }

  // ---- specification ----

  datatype Model = Model(config: Config, lastSteps: int32, lastTimestamp: uint32,
                         target: real, enabled: bool, initialized: bool)
  datatype Input = Input(steps: int32, enable: bool, timestamp: uint32, position: real)

  /** Does this input only move the anchor: first sample, switch of the enable line, or disabled? */
  ghost predicate Anchors(m: Model, i: Input) {
    ConfigValid(m.config) && !(m.initialized && m.enabled && i.enable)
  }

  /** Is this an enabled step sample within the interval and rate limits? */
  ghost predicate Accepts(m: Model, i: Input) {
    && ConfigValid(m.config) && m.initialized && m.enabled && i.enable
    && 0 < Wrap(i.timestamp - m.lastTimestamp) <= m.config.maximumIntervalUs
    && var delta := CumulativeDelta(i.steps, m.lastSteps);
    && delta.Some?
    && Magnitude(delta.value) as real <= Allowance(m.config, Wrap(i.timestamp - m.lastTimestamp))
  }

  ghost function Delta(m: Model, i: Input): int
    requires Accepts(m, i)
  {
    CumulativeDelta(i.steps, m.lastSteps).value
  }

  ghost function Next(m: Model, i: Input): Model {
    if Anchors(m, i) then Model(m.config, i.steps, i.timestamp, i.position, i.enable, true)
    else if Accepts(m, i) then
      m.(lastSteps := i.steps, lastTimestamp := i.timestamp,
         target := m.target + Delta(m, i) as real / m.config.stepsPerRevolution as real)
    else m
  }

  ghost function Report(m: Model, i: Input): Option<Output> {
    if Anchors(m, i) then
      Some(Output(if i.enable then Enabled else if m.initialized && m.enabled then Disabled else NoEvent, i.position, 0))
    else if Accepts(m, i) then
      Some(Output(if Delta(m, i) == 0 then NoEvent else TargetUpdated, Next(m, i).target, Delta(m, i)))
    else None
  }

  /** A true sample: unbounded step count and unbounded microseconds. */
  datatype Truth = Truth(steps: int, time: nat)

  ghost function Sampled(t: Truth): Input {
    Input(Signed32(Wrap(t.steps)), true, Wrap(t.time), 0.0)
  }

  /** Every update of the run is accepted, its true step change is below 2^31, and time moves on. */
  ghost predicate AcceptedRun(m: Model, from: Truth, run: seq<Truth>)
    decreases run
  {
    run != [] ==>
      && -TWO_31 < run[0].steps - from.steps < TWO_31
      && from.time <= run[0].time
      && Accepts(m, Sampled(run[0]))
      && AcceptedRun(Next(m, Sampled(run[0])), run[0], run[1..])
  }

  ghost function Deltas(m: Model, run: seq<Truth>): seq<int>
    requires AcceptedFrom(m, run)
    decreases run
  {
    if run == [] then []
    else [Delta(m, Sampled(run[0]))] + Deltas(Next(m, Sampled(run[0])), run[1..])
  }

  ghost predicate AcceptedFrom(m: Model, run: seq<Truth>)
    decreases run
  {
    run == [] || (Accepts(m, Sampled(run[0])) && AcceptedFrom(Next(m, Sampled(run[0])), run[1..]))
  }

  ghost function Final(m: Model, run: seq<Truth>): Model
    decreases run
  {
    if run == [] then m else Final(Next(m, Sampled(run[0])), run[1..])
  }

  ghost function Sum(s: seq<int>): int {
    if s == [] then 0 else s[0] + Sum(s[1..])
  }

  ghost function SumMagnitude(s: seq<int>): int {
    if s == [] then 0 else Magnitude(s[0]) + SumMagnitude(s[1..])
  }

  ghost function End(from: Truth, run: seq<Truth>): Truth {
    if run == [] then from else run[|run| - 1]
  }

  /** Does the decoder's anchor hold the wrapped true sample? */
  ghost predicate Anchored(m: Model, t: Truth) {
    m.lastSteps == Signed32(Wrap(t.steps)) && m.lastTimestamp == Wrap(t.time)
  }

  /** One accepted update reports exactly the true change. */
  lemma TrueDelta(to: int, from: int)
    requires -TWO_31 < to - from < TWO_31
    ensures CumulativeDelta(Signed32(Wrap(to)), Signed32(Wrap(from))) == Some(to - from)
  {
    WordOfSigned(to);
    WordOfSigned(from);
    WrapDifference(to, from);
    if to >= from {
      WrapUnique(to - from, to - from, 0);
    } else {
      WrapUnique(to - from, to - from + TWO_32, -1);
      WrapUnique(0 - (to - from + TWO_32), from - to, -1);
    }
  }

  /** The wrapped interval never exceeds the true one, so neither does its allowance. */
  lemma AllowanceBound(c: Config, to: nat, from: nat)
    requires from <= to && c.maximumRate > 0.0
    ensures Allowance(c, Wrap(Wrap(to) - Wrap(from))) <= Allowance(c, to - from)
  {
    WrapDifference(to, from);
    WrapAtMost(to - from);
    RateMonotone(c.maximumRate, Wrap(to - from) as real, (to - from) as real);
  }

  lemma WrapAtMost(x: nat)
    ensures Wrap(x) <= x
  {
    assert x == (x / TWO_32) * TWO_32 + Wrap(x);
  }

  /** A 32-bit counter read back as signed still has the same word. */
  lemma WordOfSigned(x: int)
    ensures Wrap(Signed32(Wrap(x))) == Wrap(x)
  {
    if Wrap(x) < TWO_31 {
      WrapUnique(Wrap(x), Wrap(x), 0);
    } else {
      WrapUnique(Wrap(x) - TWO_32, Wrap(x), -1);
    }
  }

  lemma RateMonotone(rate: real, x: real, y: real)
    requires rate > 0.0 && x <= y
    ensures rate * (x * 0.000001) <= rate * (y * 0.000001)
  {
  }

  /** All that one accepted update of a run does. */
  lemma AcceptedStep(m: Model, from: Truth, to: Truth)
    requires Anchored(m, from) && Accepts(m, Sampled(to))
    requires -TWO_31 < to.steps - from.steps < TWO_31 && from.time <= to.time
    ensures Delta(m, Sampled(to)) == to.steps - from.steps
    ensures Magnitude(to.steps - from.steps) as real <= Allowance(m.config, to.time - from.time)
    ensures Anchored(Next(m, Sampled(to)), to)
    ensures Next(m, Sampled(to)).config == m.config
    ensures Next(m, Sampled(to)).target ==
            m.target + (to.steps - from.steps) as real / m.config.stepsPerRevolution as real
  {
    TrueDelta(to.steps, from.steps);
    AllowanceBound(m.config, to.time, from.time);
  }

  /** The true changes of a run, and the rate limit stated on them. */
  ghost function TrueDeltas(from: Truth, run: seq<Truth>): seq<int>
    decreases run
  {
    if run == [] then [] else [run[0].steps - from.steps] + TrueDeltas(run[0], run[1..])
  }

  ghost predicate WithinRate(c: Config, from: Truth, run: seq<Truth>)
    decreases run
  {
    run != [] ==>
      && from.time <= run[0].time
      && Magnitude(run[0].steps - from.steps) as real <= Allowance(c, run[0].time - from.time)
      && WithinRate(c, run[0], run[1..])
  }

  /** Every reported delta is the true one, however often the counter wraps. */
  lemma {:induction false} DeltasAreTrue(m: Model, from: Truth, run: seq<Truth>)
    requires Anchored(m, from) && AcceptedRun(m, from, run)
    ensures AcceptedFrom(m, run) && WithinRate(m.config, from, run)
    ensures Deltas(m, run) == TrueDeltas(from, run)
    decreases run
  {
    if run != [] {
      AcceptedStep(m, from, run[0]);
      DeltasAreTrue(Next(m, Sampled(run[0])), run[0], run[1..]);
    }
  }

  lemma {:induction false} TrueDeltasSum(from: Truth, run: seq<Truth>)
    ensures Sum(TrueDeltas(from, run)) == End(from, run).steps - from.steps
    decreases run
  {
    if run != [] {
      TrueDeltasSum(run[0], run[1..]);
      assert TrueDeltas(from, run)[1..] == TrueDeltas(run[0], run[1..]);
    }
  }

  /** What the rate allows over a whole interval, plus one step an update. */
  ghost function TravelLimit(c: Config, elapsedUs: int, updates: int): real {
    c.maximumRate * (elapsedUs as real * 0.000001) + updates as real
  }

  lemma {:induction false} TravelBounded(c: Config, from: Truth, run: seq<Truth>)
    requires WithinRate(c, from, run)
    ensures from.time <= End(from, run).time
    ensures SumMagnitude(TrueDeltas(from, run)) as real <=
            TravelLimit(c, End(from, run).time - from.time, |run|)
    decreases run
  {
    if run != [] {
      TravelBounded(c, run[0], run[1..]);
      assert TrueDeltas(from, run)[1..] == TrueDeltas(run[0], run[1..]);
      TravelAdds(c, run[0].time - from.time, End(from, run).time - run[0].time,
                 Magnitude(run[0].steps - from.steps), SumMagnitude(TrueDeltas(run[0], run[1..])), |run| - 1);
    }
  }

  /** The target moves by exactly the true change in revolutions. */
  lemma {:induction false} TargetFollows(m: Model, from: Truth, run: seq<Truth>)
    requires ConfigValid(m.config)
    requires Anchored(m, from) && AcceptedRun(m, from, run)
    ensures Final(m, run).target ==
            m.target + (End(from, run).steps - from.steps) as real / m.config.stepsPerRevolution as real
    decreases run
  {
    if run != [] {
      var next, last := Next(m, Sampled(run[0])), End(from, run);
      AcceptedStep(m, from, run[0]);
      TargetFollows(next, run[0], run[1..]);
      assert End(run[0], run[1..]) == last;
      FractionSplits((run[0].steps - from.steps) as real, (last.steps - run[0].steps) as real,
                     m.config.stepsPerRevolution as real);
    }
  }

  /**
   Step conservation: the reported deltas sum to the true change and the
   target moved by exactly that change in revolutions.
   */
  lemma {:induction false} StepConservation(m: Model, from: Truth, run: seq<Truth>)
    requires ConfigValid(m.config) && Anchored(m, from) && AcceptedRun(m, from, run)
    ensures AcceptedFrom(m, run)
    ensures Sum(Deltas(m, run)) == End(from, run).steps - from.steps
    ensures Final(m, run).target ==
            m.target + Sum(Deltas(m, run)) as real / m.config.stepsPerRevolution as real
  {
    DeltasAreTrue(m, from, run);
    TrueDeltasSum(from, run);
    TargetFollows(m, from, run);
  }

  /** The total travel of a run is within the configured rate plus one step an update. */
  lemma {:induction false} TravelWithinRate(m: Model, from: Truth, run: seq<Truth>)
    requires Anchored(m, from) && AcceptedRun(m, from, run)
    ensures AcceptedFrom(m, run) && from.time <= End(from, run).time
    ensures SumMagnitude(Deltas(m, run)) as real <=
            TravelLimit(m.config, End(from, run).time - from.time, |run|)
  {
    DeltasAreTrue(m, from, run);
    TravelBounded(m.config, from, run);
  }

  lemma FractionSplits(x: real, y: real, n: real)
    requires n != 0.0
    ensures x / n + y / n == (x + y) / n
  {
  }

  lemma TravelAdds(c: Config, first: int, rest: int, step: int, travel: int, updates: int)
    requires step as real <= Allowance(c, first)
    requires travel as real <= TravelLimit(c, rest, updates)
    ensures (step + travel) as real <= TravelLimit(c, first + rest, updates + 1)
  {
    var r, f, g := c.maximumRate, first as real, rest as real;
    assert (first + rest) as real == f + g;
    assert r * (f * 0.000001) + r * (g * 0.000001) == r * ((f + g) * 0.000001);
    assert TravelLimit(c, first + rest, updates + 1) == r * ((f + g) * 0.000001) + (updates + 1) as real;
    assert Allowance(c, first) == r * (f * 0.000001) + 1.0;
    assert TravelLimit(c, rest, updates) == r * (g * 0.000001) + updates as real;
  }

  // ---- runs with rejected updates ----

  /** The decoder is following steps: initialised with the enable line on. */
  ghost predicate Following(m: Model) {
    ConfigValid(m.config) && m.initialized && m.enabled
  }

  /** The samples of a run that are accepted. */
  ghost function Kept(m: Model, run: seq<Truth>): seq<Truth>
    decreases run
  {
    if run == [] then []
    else if Accepts(m, Sampled(run[0])) then [run[0]] + Kept(Next(m, Sampled(run[0])), run[1..])
    else Kept(m, run[1..])
  }

  /** Each accepted sample is later than the last accepted one and less than 2^31 steps from it. */
  ghost predicate Trackable(m: Model, from: Truth, run: seq<Truth>)
    decreases run
  {
    run != [] ==>
      if Accepts(m, Sampled(run[0])) then
        && -TWO_31 < run[0].steps - from.steps < TWO_31
        && from.time <= run[0].time
        && Trackable(Next(m, Sampled(run[0])), run[0], run[1..])
      else Trackable(m, from, run[1..])
  }

  /** The sum of the deltas in the outputs; a rejected update has none. */
  ghost function Reported(m: Model, run: seq<Truth>): int
    decreases run
  {
    if run == [] then 0
    else
      var i := Sampled(run[0]);
      (match Report(m, i) case Some(output) => output.delta case None => 0) + Reported(Next(m, i), run[1..])
  }

  lemma FollowingStep(m: Model, t: Truth)
    requires Following(m)
    ensures Following(Next(m, Sampled(t)))
    ensures !Accepts(m, Sampled(t)) ==> Next(m, Sampled(t)) == m && Report(m, Sampled(t)).None?
    ensures Accepts(m, Sampled(t)) ==>
              Report(m, Sampled(t)).Some? && Report(m, Sampled(t)).value.delta == Delta(m, Sampled(t))
  {}

  /** Rejected updates drop out: a run does what its accepted samples alone do. */
  lemma {:induction false} RejectedDropOut(m: Model, from: Truth, run: seq<Truth>)
    requires Following(m) && Anchored(m, from) && Trackable(m, from, run)
    ensures AcceptedRun(m, from, Kept(m, run)) && AcceptedFrom(m, Kept(m, run))
    ensures Final(m, run) == Final(m, Kept(m, run))
    ensures Reported(m, run) == Sum(Deltas(m, Kept(m, run)))
    decreases run
  {
    hide Accepts, Next, Report, Sampled, Delta, Following, Anchored;
    if run != [] {
      var i := Sampled(run[0]);
      var next := Next(m, i);
      FollowingStep(m, run[0]);
      if Accepts(m, i) {
        AcceptedStep(m, from, run[0]);
        RejectedDropOut(next, run[0], run[1..]);
        KeptFirst(m, run);
      } else {
        RejectedDropOut(m, from, run[1..]);
      }
    }
  }

  lemma KeptFirst(m: Model, run: seq<Truth>)
    requires run != [] && Accepts(m, Sampled(run[0]))
    requires AcceptedFrom(Next(m, Sampled(run[0])), Kept(Next(m, Sampled(run[0])), run[1..]))
    ensures
      var kept, next := Kept(m, run), Next(m, Sampled(run[0]));
      && kept != [] && kept[0] == run[0] && kept[1..] == Kept(next, run[1..])
      && AcceptedFrom(m, kept)
      && Sum(Deltas(m, kept)) == Delta(m, Sampled(run[0])) + Sum(Deltas(next, kept[1..]))
  {
    hide Accepts, Next, Sampled, Delta;
    var kept, next := Kept(m, run), Next(m, Sampled(run[0]));
    assert kept[1..] == Kept(next, run[1..]);
    assert Deltas(m, kept)[1..] == Deltas(next, kept[1..]);
  }

  /**
   Step conservation with rejected updates anywhere in between: what was
   reported is the true change up to the last accepted sample, the target moved
   by exactly that, and the travel is within the rate up to that sample.
   */
  lemma ConservationDespiteRejections(m: Model, from: Truth, run: seq<Truth>)
    requires Following(m) && Anchored(m, from) && Trackable(m, from, run)
    ensures
      var last := End(from, Kept(m, run));
      && Reported(m, run) == last.steps - from.steps
      && Final(m, run).target == m.target + Reported(m, run) as real / m.config.stepsPerRevolution as real
      && from.time <= last.time
      && AcceptedFrom(m, Kept(m, run))
      && SumMagnitude(Deltas(m, Kept(m, run))) as real
         <= TravelLimit(m.config, last.time - from.time, |Kept(m, run)|)
  {
    hide Accepts, Next, Sampled, Delta, Deltas, Kept, Reported, Final, Trackable, AcceptedRun, AcceptedFrom, Anchored;
    RejectedDropOut(m, from, run);
    StepConservation(m, from, Kept(m, run));
    TravelWithinRate(m, from, Kept(m, run));
  }

  /** Past the maximum interval the decoder is locked out until the 32-bit interval comes round again. */
  ghost predicate Overslept(m: Model, from: Truth, run: seq<Truth>) {
    forall i :: 0 <= i < |run| ==> m.config.maximumIntervalUs < run[i].time - from.time <= TWO_32
  }

  /** Every enabled sample in that span is rejected and changes nothing. */
  lemma {:induction false} LockOut(m: Model, from: Truth, run: seq<Truth>)
    requires Following(m) && Anchored(m, from) && Overslept(m, from, run)
    ensures Kept(m, run) == [] && Final(m, run) == m && Reported(m, run) == 0
    decreases run
  {
    hide Accepts, Next, Report, Sampled, Following, Anchored;
    if run != [] {
      LockOutStep(m, from, run[0]);
      FollowingStep(m, run[0]);
      LockOut(m, from, run[1..]);
    }
  }

  lemma LockOutStep(m: Model, from: Truth, t: Truth)
    requires Anchored(m, from) && m.config.maximumIntervalUs < t.time - from.time <= TWO_32
    ensures !Accepts(m, Sampled(t))
  {
    WrapDifference(t.time, from.time);
    if t.time - from.time < TWO_32 {
      WrapUnique(t.time - from.time, t.time - from.time, 0);
    } else {
      WrapUnique(t.time - from.time, 0, 1);
    }
  }
}
