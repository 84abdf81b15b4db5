/**
 The wrap-safe deadline of a remote current test: firmware/src/main.c computes
 it when the test starts and polls it on every housekeeping pass.
 */
module RunDeadline {
  import opened Words

  const MINIMUM_DURATION_MS: int := 3
  const MAXIMUM_DURATION_MS: int := 0x7FFF_FFFF

  /** The payload check of `commissioning_start`; the sum is taken in 64 bits. */
  predicate DurationAccepted(ramp: uint32, hold: uint32) {
    && MINIMUM_DURATION_MS <= hold <= MAXIMUM_DURATION_MS
    && ramp <= MAXIMUM_DURATION_MS
    && ramp + hold <= MAXIMUM_DURATION_MS
  }

  function DeadlineWord(now: uint32, ramp: uint32, hold: uint32): uint32 {
    Wrap(Wrap(now + ramp) + hold)
  }

  predicate Expired(now: uint32, deadline: uint32) {
    Signed32(Wrap(now - deadline)) >= 0
  }

  /** What the 32-bit poll computes at every true time, however late. */
  lemma ExpiredMeaning(start: nat, ramp: uint32, hold: uint32, poll: nat)
    ensures Expired(Wrap(poll), DeadlineWord(Wrap(start), ramp, hold))
            <==> (poll - (start + ramp + hold)) % TWO_32 < TWO_31
  {
    WrapSum(start, ramp);
    WrapSum(start + ramp, hold);
    WrapDifference(poll, start + ramp + hold);
  }

  /** For polls less than 2^31 ms past the deadline the poll is exact. */
  lemma DeadlineRefinement(start: nat, ramp: uint32, hold: uint32, poll: nat)
    requires DurationAccepted(ramp, hold)
    requires start <= poll < start + ramp + hold + TWO_31
    ensures Expired(Wrap(poll), DeadlineWord(Wrap(start), ramp, hold)) <==> start + ramp + hold <= poll
  {
    var late := poll - (start + ramp + hold);
    ExpiredMeaning(start, ramp, hold, poll);
    if late < 0 {
      WrapUnique(late, late + TWO_32, -1);
    } else {
      WrapUnique(late, late, 0);
    }
  }

  /** Polls that are nowhere 2^31 ms apart, the first of them after the start. */
  ghost predicate Polled(start: nat, polls: seq<nat>) {
    forall i :: 0 <= i < |polls| ==>
      var previous := if i == 0 then start else polls[i - 1];
      previous <= polls[i] < previous + TWO_31
  }

  /** The first pass whose poll reports expiry. */
  function EndingPass(polls: seq<nat>, deadline: uint32): (k: nat)
    ensures k <= |polls|
    ensures forall i :: 0 <= i < k ==> !Expired(Wrap(polls[i]), deadline)
    ensures k < |polls| ==> Expired(Wrap(polls[k]), deadline)
  {
    if polls == [] || Expired(Wrap(polls[0]), deadline) then 0
    else 1 + EndingPass(polls[1..], deadline)
  }

  /**
   A run is never ended early, and the first pass at or after the true
   deadline ends it, for every sequence of passes.
   */
  lemma FirstPassAtDeadlineEnds(start: nat, ramp: uint32, hold: uint32, polls: seq<nat>)
    requires DurationAccepted(ramp, hold) && Polled(start, polls)
    ensures
      var k := EndingPass(polls, DeadlineWord(Wrap(start), ramp, hold));
      && (forall i :: 0 <= i < k ==> polls[i] < start + ramp + hold)
      && (k < |polls| ==> start + ramp + hold <= polls[k])
  {
    var deadline := DeadlineWord(Wrap(start), ramp, hold);
    var k := EndingPass(polls, deadline);
    var i := 0;
    while i < k
      invariant 0 <= i <= k
      invariant forall j :: 0 <= j < i ==> polls[j] < start + ramp + hold
      invariant i > 0 ==> start <= polls[i - 1]
    {
      assert (if i == 0 then start else polls[i - 1]) <= polls[i];
      DeadlineRefinement(start, ramp, hold, polls[i]);
      i := i + 1;
    }
    if k < |polls| {
      assert (if k == 0 then start else polls[k - 1]) <= polls[k];
      DeadlineRefinement(start, ramp, hold, polls[k]);
    }
  }
}
