/**
 The encoder loop of `analyze` in tools/analyze_current_loop.py: raw 14-bit
 angles are unwrapped into a running count.
 */
module EncoderUnwrap {
  const COUNTS: int := 16384
  const HALF: int := 8192

  /** The correction of one raw difference. */
  function ShortestDelta(delta: int): int {
    if delta > HALF then delta - COUNTS else if delta < -HALF then delta + COUNTS else delta
  }

  method Unwrap(raw: seq<int>) returns (unwrapped: seq<int>)
    requires raw != []
    ensures unwrapped == Unwrapped(raw)
  {
    unwrapped := [raw[0]];
    while |unwrapped| < |raw|
      invariant 1 <= |unwrapped| <= |raw| && unwrapped == Unwrapped(raw[..|unwrapped|])
    {
      var n := |unwrapped|;
      var delta := raw[n] - raw[n - 1];
      if delta > 8192 {
        delta := delta - 16384;
      } else if delta < -8192 {
        delta := delta + 16384;
      }
      assert raw[..n + 1][..n] == raw[..n];
      unwrapped := unwrapped + [unwrapped[n - 1] + delta];
    }
    assert raw[..|raw|] == raw;
  }

  // ---- specification ----

  function Unwrapped(raw: seq<int>): (u: seq<int>)
    requires raw != []
    ensures |u| == |raw|
  {
    if |raw| == 1 then raw
    else
      var n := |raw| - 1;
      var before := Unwrapped(raw[..n]);
      before + [before[n - 1] + ShortestDelta(raw[n] - raw[n - 1])]
  }

  /** What a 14-bit encoder reports of an unbounded position. */
  function Reading(position: int): int {
    position % COUNTS
  }

  function Readings(positions: seq<int>): (r: seq<int>)
    ensures |r| == |positions|
    ensures forall i :: 0 <= i < |r| ==> r[i] == Reading(positions[i])
  {
    if positions == [] then [] else [Reading(positions[0])] + Readings(positions[1..])
  }

  /**
   When the correction recovers a true movement: less than half a turn always,
   exactly half a turn only if it did not cross the wrap of the encoder.
   */
  predicate Recoverable(before: int, after: int) {
    || -HALF < after - before < HALF
    || (after - before == HALF && Reading(before) < HALF)
    || (after - before == -HALF && Reading(before) >= HALF)
  }

  lemma DeltaIsTrueIff(before: int, after: int)
    ensures ShortestDelta(Reading(after) - Reading(before)) == after - before <==> Recoverable(before, after)
  {
    var p, q := before / COUNTS, after / COUNTS;
    assert before == COUNTS * p + Reading(before) && after == COUNTS * q + Reading(after);
  }

  lemma {:induction false} ReadingsPrefix(positions: seq<int>, n: nat)
    requires n <= |positions|
    ensures Readings(positions)[..n] == Readings(positions[..n])
  {
    hide Reading, Readings;
    var r, s := Readings(positions)[..n], Readings(positions[..n]);
    assert forall i :: 0 <= i < n ==> r[i] == Reading(positions[i]) == s[i];
  }

  lemma {:induction false} UnwrappedLast(raw: seq<int>, n: nat)
    requires 0 < n == |raw| - 1
    ensures Unwrapped(raw)[..n] == Unwrapped(raw[..n])
    ensures Unwrapped(raw)[n] == Unwrapped(raw[..n])[n - 1] + ShortestDelta(raw[n] - raw[n - 1])
  {
    hide ShortestDelta;
  }

  /** The last unwrapped value: the one before it plus the corrected difference. */
  lemma {:induction false} UnwrapLast(positions: seq<int>, n: nat)
    requires 0 < n == |positions| - 1
    ensures
      var before, u := Unwrapped(Readings(positions[..n])), Unwrapped(Readings(positions));
      && u[..n] == before
      && u[n] == before[n - 1] + ShortestDelta(Reading(positions[n]) - Reading(positions[n - 1]))
  {
    hide Reading, ShortestDelta, Readings, Unwrapped;
    ReadingsPrefix(positions, n);
    UnwrappedLast(Readings(positions), n);
  }

  /** The unwrapped count differs from the true position by the whole turns of the start. */
  lemma {:induction false} UnwrapTracks(positions: seq<int>)
    requires positions != []
    requires forall i :: 0 < i < |positions| ==> Recoverable(positions[i - 1], positions[i])
    ensures
      var u := Unwrapped(Readings(positions));
      forall i :: 0 <= i < |positions| ==> u[i] - u[0] == positions[i] - positions[0]
    decreases |positions|
  {
    hide Recoverable, Reading, ShortestDelta, Unwrapped;
    var n := |positions| - 1;
    if n > 0 {
      UnwrapTracks(positions[..n]);
      UnwrapLast(positions, n);
      DeltaIsTrueIff(positions[n - 1], positions[n]);
      var before, u := Unwrapped(Readings(positions[..n])), Unwrapped(Readings(positions));
      forall i | 0 <= i < n ensures u[i] - u[0] == positions[i] - positions[0] {
        assert u[i] == before[i] && u[0] == before[0];
      }
    }
  }

  /** The first movement that is not recoverable is where the count goes wrong. */
  lemma {:induction false} UnwrapLosesTrack(positions: seq<int>, k: nat)
    requires 0 < k < |positions| && !Recoverable(positions[k - 1], positions[k])
    ensures
      var u := Unwrapped(Readings(positions));
      u[k] - u[k - 1] != positions[k] - positions[k - 1]
    decreases |positions|
  {
    hide Recoverable, Reading, ShortestDelta, Unwrapped;
    var n := |positions| - 1;
    UnwrapLast(positions, n);
    if k == n {
      DeltaIsTrueIff(positions[n - 1], positions[n]);
    } else {
      UnwrapLosesTrack(positions[..n], k);
    }
  }

  /**
   The count follows the true position at every sample exactly when every
   single movement is recoverable.
   */
  lemma {:induction false} UnwrapTracksIff(positions: seq<int>)
    requires positions != []
    ensures
      var u := Unwrapped(Readings(positions));
      (forall i :: 0 <= i < |positions| ==> u[i] - u[0] == positions[i] - positions[0])
      <==> (forall i :: 0 < i < |positions| ==> Recoverable(positions[i - 1], positions[i]))
  {
    hide Recoverable, Unwrapped;
    var u := Unwrapped(Readings(positions));
    if forall i :: 0 < i < |positions| ==> Recoverable(positions[i - 1], positions[i]) {
      UnwrapTracks(positions);
    } else {
      var k :| 0 < k < |positions| && !Recoverable(positions[k - 1], positions[k]);
      UnwrapLosesTrack(positions, k);
    }
  }

  /** Whatever the readings, the count stays congruent to them. */
  lemma {:induction false} UnwrapCongruent(raw: seq<int>)
    requires raw != []
    ensures var u := Unwrapped(raw);
            forall i :: 0 <= i < |raw| ==> (u[i] - raw[i]) % COUNTS == 0
    decreases |raw|
  {
    var n := |raw| - 1;
    if n > 0 {
      UnwrapCongruent(raw[..n]);
      var d := raw[n] - raw[n - 1];
      assert (ShortestDelta(d) - d) % COUNTS == 0;
    }
  }
}
