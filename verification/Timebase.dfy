/**
 The microsecond clock of firmware/include/mks57d/timebase_reconcile.h: a raw
 SysTick sample may be one counter period late, and the published 32-bit clock
 must nevertheless never run backwards.
 */
module Timebase {
  import opened Words

  /** `timebase_reconcile_microseconds`. */
  function Reconcile(previous: uint32, sampled: uint32, period: uint32): (published: uint32)
    // Whatever the sample, the clock never moves back in modulo-2^32 time.
    ensures Signed32(Wrap(published - previous)) >= 0
    ensures published in {previous, sampled, Wrap(sampled + period)}
  {
    var delta := Signed32(Wrap(sampled - previous));
    var regression := Wrap(previous - sampled);
    if delta < 0 && period != 0 && regression < period then
      var advanced := Wrap(sampled + period);
      if Signed32(Wrap(advanced - previous)) > 0 then advanced else previous
    else
      if delta > 0 then sampled else previous
  }

  /**
   One sampling instant: the true, unbounded time, and whether the SysTick
   handler had yet to publish the counter reload when the sample was taken.
   */
  datatype Sample = Sample(time: nat, late: bool)

  function RawTime(sample: Sample, period: int): int {
    if sample.late then sample.time - period else sample.time
  }

  /** The 32-bit clock after a whole run of samples. */
  function Published(start: nat, samples: seq<Sample>, period: uint32): uint32 {
    if samples == [] then Wrap(start)
    else
      var last := |samples| - 1;
      Reconcile(Published(start, samples[..last], period), Wrap(RawTime(samples[last], period)), period)
  }

  /** The unbounded clock the 32-bit one stands for. */
  ghost function Clock(start: nat, samples: seq<Sample>, period: uint32): int {
    if samples == [] then start
    else
      var last := |samples| - 1;
      var before := Clock(start, samples[..last], period);
      var raw := RawTime(samples[last], period);
      if raw >= before then raw
      else if before - raw < period then samples[last].time
      else before
  }

  /** True time when the last of the samples was taken. */
  ghost function Now(start: nat, samples: seq<Sample>): nat {
    if samples == [] then start else samples[|samples| - 1].time
  }

  /**
   A run: true time never decreases, and each sample is taken less than 2^31
   microseconds after the published clock, as the header demands.
   */
  ghost predicate Run(start: nat, samples: seq<Sample>, period: uint32) {
    samples == [] ||
    var last := |samples| - 1;
    && Run(start, samples[..last], period)
    && Now(start, samples[..last]) <= samples[last].time
    && samples[last].time - Clock(start, samples[..last], period) < TWO_31
  }

  /** No raw sample is more than 2^31 microseconds behind the published clock. */
  ghost predicate InRange(start: nat, samples: seq<Sample>, period: uint32) {
    samples == [] ||
    var last := |samples| - 1;
    && InRange(start, samples[..last], period)
    && Clock(start, samples[..last], period) - RawTime(samples[last], period) <= TWO_31
  }

  /** The unbounded clock never leads true time and lags it by at most one period. */
  lemma {:induction false} ClockNearTruth(start: nat, samples: seq<Sample>, period: uint32)
    requires Run(start, samples, period)
    ensures Now(start, samples) - period <= Clock(start, samples, period) <= Now(start, samples)
  {
    if samples != [] {
      ClockNearTruth(start, samples[..|samples| - 1], period);
    }
  }

  /** Counter periods up to 2^31 microseconds keep every run in range. */
  lemma {:induction false} ShortPeriodInRange(start: nat, samples: seq<Sample>, period: uint32)
    requires Run(start, samples, period) && period <= TWO_31
    ensures InRange(start, samples, period)
  {
    if samples != [] {
      ShortPeriodInRange(start, samples[..|samples| - 1], period);
      ClockNearTruth(start, samples[..|samples| - 1], period);
    }
  }

  /**
   Clock refinement: over any run in range the 32-bit clock is the wrapped
   unbounded one, which never leads true time and lags it by at most one
   period.
   */
  lemma {:induction false} ClockRefinement(start: nat, samples: seq<Sample>, period: uint32)
    requires Run(start, samples, period) && InRange(start, samples, period)
    ensures Published(start, samples, period) == Wrap(Clock(start, samples, period))
    ensures Now(start, samples) - period <= Clock(start, samples, period) <= Now(start, samples)
  {
    ClockNearTruth(start, samples, period);
    if samples != [] {
      var last := |samples| - 1;
      ClockRefinement(start, samples[..last], period);
      ReconcileStep(Clock(start, samples[..last], period), samples[last], period);
    }
  }

  /** The 32-bit clock after each prefix of a run is the wrapped unbounded one. */
  ghost predicate Refines(start: nat, samples: seq<Sample>, period: uint32) {
    && Published(start, samples, period) == Wrap(Clock(start, samples, period))
    && (samples != [] ==> Refines(start, samples[..|samples| - 1], period))
  }

  /** For every 32-bit period: the clock is right throughout a run exactly when the run is in range. */
  lemma {:induction false} ClockRefinementIff(start: nat, samples: seq<Sample>, period: uint32)
    requires Run(start, samples, period)
    ensures Refines(start, samples, period) <==> InRange(start, samples, period)
  {
    if samples != [] {
      var last := |samples| - 1;
      ClockRefinementIff(start, samples[..last], period);
      ClockNearTruth(start, samples[..last], period);
      ReconcileStep(Clock(start, samples[..last], period), samples[last], period);
    }
  }

  /** One publication, on unbounded time, is right exactly when the sample is in range. */
  lemma ReconcileStep(before: int, sample: Sample, period: uint32)
    requires before <= sample.time < before + TWO_31
    ensures
      var raw := RawTime(sample, period);
      Reconcile(Wrap(before), Wrap(raw), period) ==
      Wrap(if raw >= before then raw else if before - raw < period then sample.time else before)
      <==> before - raw <= TWO_31
  {
    var raw := RawTime(sample, period);
    if before - raw <= TWO_31 {
      InRangeStep(before, sample, period);
    } else {
      OutOfRangeStep(before, sample, period);
    }
  }

  lemma InRangeStep(before: int, sample: Sample, period: uint32)
    requires before <= sample.time < before + TWO_31 && before - RawTime(sample, period) <= TWO_31
    ensures
      var raw := RawTime(sample, period);
      Reconcile(Wrap(before), Wrap(raw), period) ==
      Wrap(if raw >= before then raw else if before - raw < period then sample.time else before)
  {
    var raw := RawTime(sample, period);
    if raw >= before {
      Forward(before, raw, period);
    } else {
      Regression(before, raw, period);
    }
  }

  /** A sample at or ahead of the clock is published. */
  lemma Forward(before: int, raw: int, period: uint32)
    requires 0 <= raw - before < TWO_31
    ensures Reconcile(Wrap(before), Wrap(raw), period) == Wrap(raw)
  {
    hide Wrap, Signed32;
    SignedDifference(raw, before);
    WrapInjective(raw, before);
  }

  /** A sample behind the clock by less than a period is moved up by one, otherwise dropped. */
  lemma Regression(before: int, raw: int, period: uint32)
    requires 0 < before - raw <= TWO_31 && 0 <= raw + period - before < TWO_31
    ensures Reconcile(Wrap(before), Wrap(raw), period) == Wrap(if before - raw < period then raw + period else before)
  {
    hide Wrap, Signed32;
    SignedDifference(raw, before);
    WrapDifference(before, raw);
    SmallWrap(before - raw);
    WrapSum(raw, period);
    SignedDifference(raw + period, before);
    WrapInjective(raw + period, before);
  }

  lemma SmallWrap(x: int)
    requires 0 <= x < TWO_32
    ensures Wrap(x) == x
  {
    WrapUnique(x, x, 0);
  }

  /** Further behind, the late sample looks like one in the future and is published as it is. */
  lemma OutOfRangeStep(before: int, sample: Sample, period: uint32)
    requires before <= sample.time < before + TWO_31 && before - RawTime(sample, period) > TWO_31
    ensures
      var raw := RawTime(sample, period);
      && Reconcile(Wrap(before), Wrap(raw), period) == Wrap(raw)
      && Wrap(raw) != Wrap(before) && Wrap(raw) != Wrap(sample.time)
  {
    var raw := RawTime(sample, period);
    WrapDifference(raw, before);
    WrapUnique(raw - before, raw - before + TWO_32, -1);
    WrapInjective(raw, before);
    WrapInjective(raw, sample.time);
  }

  /** Never backwards: every longer run has published a later or equal time. */
  lemma {:induction false} NeverBackwards(start: nat, samples: seq<Sample>, period: uint32, k: nat)
    requires k <= |samples| && Run(start, samples, period)
    ensures Run(start, samples[..k], period)
    ensures Clock(start, samples[..k], period) <= Clock(start, samples, period)
  {
    if k == |samples| {
      assert samples[..k] == samples;
    } else {
      var last := |samples| - 1;
      ClockNearTruth(start, samples[..last], period);
      NeverBackwards(start, samples[..last], period, k);
      assert samples[..last][..k] == samples[..k];
    }
  }
}
