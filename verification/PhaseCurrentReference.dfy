/**
 The fixed-point sine table of firmware/src/control/phase_current_reference.c:
 Q15 interpolation of a 32-entry wave and the polar-to-A/B conversion.
 */
module PhaseCurrentReference {
  import opened Words

  /** The 32 entries of `SINE_Q15`. */
  function SineEntry(i: int): int
    requires 0 <= i < 32
  {
    match i
    case 0 => 0  case 1 => 6393  case 2 => 12539  case 3 => 18204
    case 4 => 23170  case 5 => 27245  case 6 => 30273  case 7 => 32137
    case 8 => 32767  case 9 => 32137  case 10 => 30273  case 11 => 27245
    case 12 => 23170  case 13 => 18204  case 14 => 12539  case 15 => 6393
    case 16 => 0  case 17 => -6393  case 18 => -12539  case 19 => -18204
    case 20 => -23170  case 21 => -27245  case 22 => -30273  case 23 => -32137
    case 24 => -32767  case 25 => -32137  case 26 => -30273  case 27 => -27245
    case 28 => -23170  case 29 => -18204  case 30 => -12539  case _ => -6393
  }

  const UNIT: int := 65536        // interpolation steps a table entry
  const STEPS: int := 0x20_0000   // interpolation steps a revolution

  /** `interpolate_sine_q15`; the arithmetic shift right is floor division. */
  function Interpolate(index: int, fraction: int): int
    requires 0 <= index < 32
  {
    var first := SineEntry(index);
    var difference := SineEntry((index + 1) % 32) - first;
    first + difference * fraction / UNIT
  }

  /** `phase_current_reference_sin_cos_q15`. */
  function SinCos(phase: uint32): (r: (int, int)) {
    var index := phase / 0x800_0000;
    var fraction := phase / 0x800 % UNIT;
    (Interpolate(index, fraction), Interpolate((index + 8) % 32, fraction))
  }

  function Sine(phase: uint32): int { SinCos(phase).0 }
  function Cosine(phase: uint32): int { SinCos(phase).1 }

  // ---- the exact wave ----

  /** The exact piecewise-linear wave at interpolation step t, in units of 1/65536. */
  ghost function Wave(t: nat): int
    requires t < STEPS
  {
    Chord(SineEntry(t / UNIT), SineEntry((t / UNIT + 1) % 32), t % UNIT)
  }

  ghost function Chord(first: int, next: int, fraction: int): int {
    (UNIT - fraction) * first + fraction * next
  }

  /** The interpolation step a 32-bit phase falls in. */
  ghost function StepOf(phase: uint32): (t: nat)
    ensures t < STEPS
  {
    phase / 0x800
  }

  lemma InterpolateIsFloor(first: int, next: int, fraction: int)
    ensures first + (next - first) * fraction / UNIT == Chord(first, next, fraction) / UNIT
  {
    var rise := (next - first) * fraction;
    assert Chord(first, next, fraction) == UNIT * first + rise;
    assert (UNIT * first + rise) / UNIT == first + rise / UNIT;
  }

  lemma PhaseParts(phase: uint32)
    ensures phase / 0x800_0000 == StepOf(phase) / UNIT < 32
  {
  }

  /** The Q15 sine is the floor of the exact wave at the phase's interpolation step. */
  lemma SineIsFloorOfWave(phase: uint32)
    ensures SinCos(phase).0 == Wave(StepOf(phase)) / UNIT
  {
    hide SineEntry;
    PhaseParts(phase);
    var t := StepOf(phase);
    InterpolateIsFloor(SineEntry(t / UNIT), SineEntry((t / UNIT + 1) % 32), t % UNIT);
  }

  /** Turning by whole table entries shifts the index and keeps the fraction. */
  lemma TurnedParts(phase: uint32, quarters: nat)
    requires quarters < 4
    ensures
      var p := Wrap(phase + quarters * 0x4000_0000);
      && p / 0x800_0000 == (phase / 0x800_0000 + 8 * quarters) % 32
      && p / 0x800 % UNIT == phase / 0x800 % UNIT
  {
    var turn := quarters * 0x4000_0000;
    var k := if phase + turn < TWO_32 then 0 else 1;
    WrapUnique(phase + turn, phase + turn - k * TWO_32, k);
    EntryShift(phase, 8 * quarters - 32 * k);
  }

  lemma EntryShift(phase: int, entries: int)
    ensures (phase + 0x800_0000 * entries) / 0x800_0000 == phase / 0x800_0000 + entries
    ensures (phase + 0x800_0000 * entries) / 0x800 % UNIT == phase / 0x800 % UNIT
  {
    assert (phase + 0x800 * (UNIT * entries)) / 0x800 == phase / 0x800 + UNIT * entries;
    FractionShift(phase / 0x800, entries);
  }

  lemma FractionShift(step: int, entries: int)
    ensures (step + UNIT * entries) % UNIT == step % UNIT
  {
  }

  /** A quarter turn turns cosine into sine. */
  lemma CosineIsQuarterTurn(phase: uint32)
    ensures SinCos(phase).1 == SinCos(Wrap(phase + 0x4000_0000)).0
  {
    TurnedParts(phase, 1);
  }

  // ---- the shape of the table ----

  lemma Opposite(i: int)
    requires 0 <= i < 32
    ensures SineEntry((i + 16) % 32) == -SineEntry(i)
  {
    var j := if i < 16 then i + 16 else i - 16;
    assert (i + 16) % 32 == j;
  }

  lemma Neighbour(i: int)
    requires 0 <= i < 32
    ensures -6393 <= SineEntry((i + 1) % 32) - SineEntry(i) <= 6393
  {
    var j := if i < 31 then i + 1 else 0;
    assert (i + 1) % 32 == j;
  }

  lemma HalfTurnSegment(index: int, f: int)
    requires 0 <= index < 32
    ensures Interpolate((index + 16) % 32, f) + Interpolate(index, f) in {0, -1}
  {
    hide SineEntry;
    var next := (index + 1) % 32;
    Opposite(index);
    Opposite(next);
    NextOpposite(index);
    FloorOfNegation(SineEntry(index), SineEntry(next), SineEntry((index + 16) % 32), SineEntry((next + 16) % 32), f);
  }

  lemma NextOpposite(index: int)
    requires 0 <= index < 32
    ensures ((index + 16) % 32 + 1) % 32 == ((index + 1) % 32 + 16) % 32
  {}

  /** Half a turn negates the wave; flooring both leaves a sum of 0 or -1. */
  lemma HalfTurnNegates(phase: uint32)
    ensures Sine(Wrap(phase + 0x8000_0000)) + Sine(phase) in {0, -1}
  {
    TurnedParts(phase, 2);
    HalfTurnSegment(phase / 0x800_0000, phase / 0x800 % UNIT);
  }

  lemma FloorOfNegation(first: int, next: int, a: int, b: int, f: int)
    requires a == -first && b == -next
    ensures (a + (b - a) * f / UNIT) + (first + (next - first) * f / UNIT) in {0, -1}
  {
    var rise := (next - first) * f;
    assert (b - a) * f == -rise;
    assert -rise / UNIT + rise / UNIT in {0, -1};
  }

  // ---- continuity around the circle ----

  lemma WaveStep(t: nat)
    requires t < STEPS
    ensures Magnitude(Wave((t + 1) % STEPS) - Wave(t)) <= 6393
  {
    hide SineEntry;
    var index, f := t / UNIT, t % UNIT;
    var first, next := SineEntry(index), SineEntry((index + 1) % 32);
    Neighbour(index);
    if f + 1 < UNIT {
      assert (t + 1) % STEPS == t + 1;
      assert (t + 1) / UNIT == index && (t + 1) % UNIT == f + 1;
      assert Chord(first, next, f + 1) - Chord(first, next, f) == next - first;
    } else {
      var u := (t + 1) % STEPS;
      assert u == if index < 31 then (index + 1) * UNIT else 0;
      assert u / UNIT == (index + 1) % 32 && u % UNIT == 0;
      assert Wave(u) == UNIT * next;
      assert Chord(first, next, UNIT - 1) == first + (UNIT - 1) * next;
    }
  }

  ghost predicate Close(w: nat -> int, u: nat) {
    Magnitude(w((u + 1) % STEPS) - w(u)) <= 6393
  }

  /** A circular sequence whose neighbours are close has every two entries close. */
  lemma {:induction false} CircularContinuity(w: nat -> int, t: nat, d: nat)
    requires forall u: nat :: u < STEPS ==> Close(w, u)
    requires t < STEPS
    ensures Magnitude(w((t + d) % STEPS) - w(t)) <= 6393 * d
  {
    if d > 0 {
      CircularContinuity(w, t, d - 1);
      NextStep(t + d - 1);
      assert Close(w, (t + d - 1) % STEPS);
    }
  }

  lemma WaveContinuity(t: nat, d: nat)
    requires t < STEPS
    ensures Magnitude(Wave((t + d) % STEPS) - Wave(t)) <= 6393 * d
  {
    var w: nat -> int := (u: nat) => if u < STEPS then Wave(u) else 0;
    forall u: nat | u < STEPS
      ensures Close(w, u)
    {
      WaveStep(u);
    }
    CircularContinuity(w, t, d);
  }

  lemma NextStep(n: nat)
    ensures (n % STEPS + 1) % STEPS == (n + 1) % STEPS
  {
  }

  /**
   Two phases d interpolation steps apart around the circle differ by less
   than 6393 * d / 65536 + 1, however far apart they are.
   */
  lemma SineContinuity(p: uint32, q: uint32, d: nat)
    requires StepOf(q) == (StepOf(p) + d) % STEPS
    ensures UNIT * Magnitude(Sine(q) - Sine(p)) < 6393 * d + UNIT
  {
    SineIsFloorOfWave(p);
    SineIsFloorOfWave(q);
    WaveContinuity(StepOf(p), d);
  }

  // ---- the norm of the sine/cosine pair ----

  const RADIUS_LOW: int := 1073657218
  const RADIUS_HIGH: int := 1073697800
  const CHORD_LOW: int := 1053033079
  const CHORD_HIGH: int := 1053053330

  /** Two neighbouring table vectors lie near the circle and near each other. */
  ghost predicate NearCircle(s0: int, c0: int, s1: int, c1: int) {
    && RADIUS_LOW <= s0 * s0 + c0 * c0 <= RADIUS_HIGH
    && RADIUS_LOW <= s1 * s1 + c1 * c1 <= RADIUS_HIGH
    && CHORD_LOW <= s0 * s1 + c0 * c1 <= CHORD_HIGH
  }

  lemma Segment0(i: int) returns (s0: int, c0: int, s1: int, c1: int)
    requires 0 <= i < 8
    ensures s0 == SineEntry(i) && c0 == SineEntry(i + 8)
    ensures s1 == SineEntry(i + 1) && c1 == SineEntry(i + 9)
    ensures NearCircle(s0, c0, s1, c1)
  {
    s0, c0, s1, c1 := SineEntry(i), SineEntry(i + 8), SineEntry(i + 1), SineEntry(i + 9);
    match i
    case 0 => case 1 => case 2 => case 3 => case 4 => case 5 => case 6 => case _ =>
  }

  lemma Segment1(i: int) returns (s0: int, c0: int, s1: int, c1: int)
    requires 8 <= i < 16
    ensures s0 == SineEntry(i) && c0 == SineEntry(i + 8)
    ensures s1 == SineEntry(i + 1) && c1 == SineEntry(i + 9)
    ensures NearCircle(s0, c0, s1, c1)
  {
    s0, c0, s1, c1 := SineEntry(i), SineEntry(i + 8), SineEntry(i + 1), SineEntry(i + 9);
    match i
    case 8 => case 9 => case 10 => case 11 => case 12 => case 13 => case 14 => case _ =>
  }

  lemma Segment2(i: int) returns (s0: int, c0: int, s1: int, c1: int)
    requires 16 <= i < 24
    ensures s0 == SineEntry(i) && c0 == SineEntry(i + 8)
    ensures s1 == SineEntry(i + 1) && c1 == SineEntry(if i < 23 then i + 9 else i - 23)
    ensures NearCircle(s0, c0, s1, c1)
  {
    s0, c0, s1, c1 := SineEntry(i), SineEntry(i + 8), SineEntry(i + 1), SineEntry(if i < 23 then i + 9 else i - 23);
    match i
    case 16 => case 17 => case 18 => case 19 => case 20 => case 21 => case 22 => case _ =>
  }

  lemma Segment3(i: int) returns (s0: int, c0: int, s1: int, c1: int)
    requires 24 <= i < 32
    ensures s0 == SineEntry(i) && c0 == SineEntry(i - 24)
    ensures s1 == SineEntry(if i < 31 then i + 1 else i - 31) && c1 == SineEntry(i - 23)
    ensures NearCircle(s0, c0, s1, c1)
  {
    s0, c0, s1, c1 := SineEntry(i), SineEntry(i - 24), SineEntry(if i < 31 then i + 1 else i - 31), SineEntry(i - 23);
    match i
    case 24 => case 25 => case 26 => case 27 => case 28 => case 29 => case 30 => case _ =>
  }

  lemma Indices(i: int)
    requires 0 <= i < 32
    ensures (i + 1) % 32 == if i < 31 then i + 1 else i - 31
    ensures (i + 8) % 32 == if i < 24 then i + 8 else i - 24
    ensures ((i + 8) % 32 + 1) % 32 == if i < 23 then i + 9 else i - 23
  {
  }

  /** The chord ends of sine and cosine in one table segment, which lie near the circle. */
  lemma Segment(i: int) returns (s0: int, c0: int, s1: int, c1: int)
    requires 0 <= i < 32
    ensures s0 == SineEntry(i) && c0 == SineEntry((i + 8) % 32)
    ensures s1 == SineEntry((i + 1) % 32) && c1 == SineEntry(((i + 8) % 32 + 1) % 32)
    ensures NearCircle(s0, c0, s1, c1)
  {
    Indices(i);
    if i < 8 {
      s0, c0, s1, c1 := Segment0(i);
    } else if i < 16 {
      s0, c0, s1, c1 := Segment1(i);
    } else if i < 24 {
      s0, c0, s1, c1 := Segment2(i);
    } else {
      s0, c0, s1, c1 := Segment3(i);
    }
  }

  /** The taxicab norm of a vector near the circle. */
  lemma TaxicabBound(s: int, c: int)
    requires s * s + c * c <= RADIUS_HIGH
    ensures Magnitude(s) + Magnitude(c) <= 46340
  {
    var a: int, b: int := Magnitude(s), Magnitude(c);
    assert a * a == s * s && b * b == c * c;
    SquareOfSum(a, b);
    if a + b >= 46341 {
      SquareMonotone(46341, a + b);
    }
  }

  lemma SquareOfSum(a: int, b: int)
    ensures (a + b) * (a + b) <= 2 * (a * a + b * b)
  {
    assert 2 * (a * a + b * b) - (a + b) * (a + b) == (a - b) * (a - b);
  }

  lemma SquareMonotone(a: int, b: int)
    requires 0 <= a <= b
    ensures a * a <= b * b
  {
  }

  lemma ConvexIdentity(g: int, f: int, x: int, y: int)
    ensures (g + f) * (g * (x * x) + f * (y * y)) - (g * x + f * y) * (g * x + f * y)
         == (g * f) * ((x - y) * (x - y))
  {
  }

  lemma NonnegativeProduct(a: int, b: int)
    requires 0 <= a && 0 <= b
    ensures 0 <= a * b
  {
  }

  lemma ChordConvex(x: int, y: int, f: int)
    requires 0 <= f < UNIT
    ensures Chord(x, y, f) * Chord(x, y, f) <= UNIT * ((UNIT - f) * (x * x) + f * (y * y))
  {
    ConvexIdentity(UNIT - f, f, x, y);
    NonnegativeProduct(UNIT - f, f);
    NonnegativeProduct((UNIT - f) * f, (x - y) * (x - y));
  }

  lemma ChordMagnitude(x: int, y: int, f: int)
    requires 0 <= f < UNIT
    ensures Magnitude(Chord(x, y, f)) <= (UNIT - f) * Magnitude(x) + f * Magnitude(y)
  {
    ScaledMagnitude(UNIT - f, x);
    ScaledMagnitude(f, y);
  }

  lemma ScaledMagnitude(k: int, x: int)
    requires 0 <= k
    ensures -(k * Magnitude(x)) <= k * x <= k * Magnitude(x)
  {
    NonnegativeProduct(k, Magnitude(x) - x);
    NonnegativeProduct(k, Magnitude(x) + x);
  }

  /** The squared norm of the exact chord point stays inside the circle. */
  lemma ChordInside(s0: int, c0: int, s1: int, c1: int, f: int)
    requires NearCircle(s0, c0, s1, c1) && 0 <= f < UNIT
    ensures
      var p, q := Chord(s0, s1, f), Chord(c0, c1, f);
      p * p + q * q <= UNIT * UNIT * RADIUS_HIGH
  {
    ChordConvex(s0, s1, f);
    ChordConvex(c0, c1, f);
    Average(s0 * s0 + c0 * c0, s1 * s1 + c1 * c1, RADIUS_HIGH, f);
  }

  lemma Average(x: int, y: int, bound: int, f: int)
    requires x <= bound && y <= bound && 0 <= f < UNIT
    ensures (UNIT - f) * x + f * y <= UNIT * bound
  {
    NonnegativeProduct(UNIT - f, bound - x);
    NonnegativeProduct(f, bound - y);
  }

  lemma ChordTaxicab(s0: int, c0: int, s1: int, c1: int, f: int)
    requires Magnitude(s0) + Magnitude(c0) <= 46340 && Magnitude(s1) + Magnitude(c1) <= 46340
    requires 0 <= f < UNIT
    ensures Magnitude(Chord(s0, s1, f)) + Magnitude(Chord(c0, c1, f)) <= UNIT * 46340
  {
    ChordMagnitude(s0, s1, f);
    ChordMagnitude(c0, c1, f);
    MagnitudesAverage(Magnitude(s0), Magnitude(c0), Magnitude(s1), Magnitude(c1), f);
  }

  lemma MagnitudesAverage(a: int, b: int, c: int, d: int, f: int)
    requires a + b <= 46340 && c + d <= 46340 && 0 <= f < UNIT
    ensures ((UNIT - f) * a + f * c) + ((UNIT - f) * b + f * d) <= UNIT * 46340
  {
    Average(a + b, c + d, 46340, f);
    assert (UNIT - f) * (a + b) == (UNIT - f) * a + (UNIT - f) * b;
    assert f * (c + d) == f * c + f * d;
  }

  /** Flooring a scaled vector moves its squared norm by a bounded amount. */
  lemma FlooredNorm(p: int, q: int, radius: int, taxicab: int)
    requires p * p + q * q <= UNIT * UNIT * radius
    requires Magnitude(p) + Magnitude(q) <= UNIT * taxicab
    ensures (p / UNIT) * (p / UNIT) + (q / UNIT) * (q / UNIT) <= radius + 2 * taxicab + 2
  {
    FlooredSquare(p);
    FlooredSquare(q);
  }

  lemma FlooredSquare(p: int)
    ensures UNIT * UNIT * ((p / UNIT) * (p / UNIT)) <= p * p + 2 * UNIT * Magnitude(p) + UNIT * UNIT
  {
    var s, r := p / UNIT, p % UNIT;
    assert UNIT * s == p - r;
    assert UNIT * UNIT * (s * s) == (UNIT * s) * (UNIT * s);
    SquareOfDifference(p, r);
    SquareMonotone(r, UNIT);
    ScaledMagnitude(r, p);
    NonnegativeProduct(UNIT - r, Magnitude(p));
  }

  lemma SquareOfDifference(p: int, r: int)
    ensures (p - r) * (p - r) == p * p - 2 * (r * p) + r * r
  {
  }

  /** The floored vector projects far enough onto the middle of the chord. */
  lemma FlooredProjection(s0: int, c0: int, s1: int, c1: int, f: int)
    requires NearCircle(s0, c0, s1, c1) && 0 <= f < UNIT
    ensures
      var s, c := Chord(s0, s1, f) / UNIT, Chord(c0, c1, f) / UNIT;
      (s0 + s1) * s + (c0 + c1) * c >= CHORD_LOW + RADIUS_LOW - 92680
  {
    var p, q := Chord(s0, s1, f), Chord(c0, c1, f);
    var u, v := s0 + s1, c0 + c1;
    TaxicabBound(s0, c0);
    TaxicabBound(s1, c1);
    ProjectionOfChord(s0, c0, s1, c1, f);
    FlooredTerm(u, p);
    FlooredTerm(v, q);
    assert Magnitude(u) + Magnitude(v) <= 92680;
  }

  lemma FlooredTerm(u: int, p: int)
    ensures UNIT * (u * (p / UNIT)) >= u * p - UNIT * Magnitude(u)
  {
    var s, r := p / UNIT, p % UNIT;
    assert p == UNIT * s + r;
    assert u * p == UNIT * (u * s) + u * r;
    NonnegativeProduct(UNIT - r, Magnitude(u));
    NonnegativeProduct(r, Magnitude(u) - u);
  }

  lemma ProjectionOfChord(s0: int, c0: int, s1: int, c1: int, f: int)
    requires NearCircle(s0, c0, s1, c1) && 0 <= f < UNIT
    ensures (s0 + s1) * Chord(s0, s1, f) + (c0 + c1) * Chord(c0, c1, f) >= UNIT * (CHORD_LOW + RADIUS_LOW)
  {
    var r0, r1, dot := s0 * s0 + c0 * c0, s1 * s1 + c1 * c1, s0 * s1 + c0 * c1;
    ProjectionIdentity(s0, c0, s1, c1, UNIT - f, f);
    Average(-(r0 + dot), -(r1 + dot), -(CHORD_LOW + RADIUS_LOW), f);
  }

  lemma ProjectionIdentity(s0: int, c0: int, s1: int, c1: int, g: int, f: int)
    ensures (s0 + s1) * (g * s0 + f * s1) + (c0 + c1) * (g * c0 + f * c1)
         == g * (s0 * s0 + c0 * c0 + (s0 * s1 + c0 * c1)) + f * (s1 * s1 + c1 * c1 + (s0 * s1 + c0 * c1))
  {
  }

  lemma CauchySchwarz(u: int, v: int, s: int, c: int)
    ensures (u * s + v * c) * (u * s + v * c) <= (u * u + v * v) * (s * s + c * c)
  {
    assert (u * u + v * v) * (s * s + c * c) - (u * s + v * c) * (u * s + v * c) == (u * c - v * s) * (u * c - v * s);
  }

  /** The norm of a floored chord point, in both directions. */
  lemma SegmentNorm(s0: int, c0: int, s1: int, c1: int, f: int)
    requires NearCircle(s0, c0, s1, c1) && 0 <= f < UNIT
    ensures
      var s, c := Chord(s0, s1, f) / UNIT, Chord(c0, c1, f) / UNIT;
      32600 * 32600 <= s * s + c * c <= 32769 * 32769
  {
    var p, q := Chord(s0, s1, f), Chord(c0, c1, f);
    ChordInside(s0, c0, s1, c1, f);
    TaxicabBound(s0, c0);
    TaxicabBound(s1, c1);
    ChordTaxicab(s0, c0, s1, c1, f);
    FlooredNorm(p, q, RADIUS_HIGH, 46340);
    FlooredProjection(s0, c0, s1, c1, f);
    LongEnough(s0 + s1, c0 + c1, p / UNIT, q / UNIT) by {
      assert (s0 + s1) * (s0 + s1) + (c0 + c1) * (c0 + c1)
          == (s0 * s0 + c0 * c0) + (s1 * s1 + c1 * c1) + 2 * (s0 * s1 + c0 * c1);
    }
  }

  lemma LongEnough(u: int, v: int, s: int, c: int)
    requires u * u + v * v <= 2 * RADIUS_HIGH + 2 * CHORD_HIGH
    requires u * s + v * c >= CHORD_LOW + RADIUS_LOW - 92680
    ensures 32600 * 32600 <= s * s + c * c
  {
    var k := CHORD_LOW + RADIUS_LOW - 92680;
    var norm, n := 2 * RADIUS_HIGH + 2 * CHORD_HIGH, s * s + c * c;
    CauchySchwarz(u, v, s, c);
    SquareMonotone(k, u * s + v * c);
    NonnegativeProduct(norm - (u * u + v * v), n);
    assert k * k <= norm * n;
    assert norm * (32600 * 32600) <= k * k;
  }

  lemma EntryRange(i: int)
    requires 0 <= i < 32
    ensures -32767 <= SineEntry(i) <= 32767
  {
  }

  lemma InterpolateRange(i: int, f: int)
    requires 0 <= i < 32 && 0 <= f < UNIT
    ensures -32767 <= Interpolate(i, f) <= 32767
  {
    hide SineEntry;
    var first, next := SineEntry(i), SineEntry((i + 1) % 32);
    EntryRange(i);
    EntryRange((i + 1) % 32);
    InterpolateIsFloor(first, next, f);
    Average(first, next, 32767, f);
    Average(-first, -next, 32767, f);
    FloorBetween(Chord(first, next, f));
  }

  lemma FloorBetween(p: int)
    requires -UNIT * 32767 <= p <= UNIT * 32767
    ensures -32767 <= p / UNIT <= 32767
  {
  }

  ghost predicate OnUnitCircle(s: int, c: int) {
    32600 * 32600 <= s * s + c * c <= 32769 * 32769
  }

  lemma SegmentValues(i: int, f: int) returns (s: int, c: int)
    requires 0 <= i < 32 && 0 <= f < UNIT
    ensures s == Interpolate(i, f) && c == Interpolate((i + 8) % 32, f)
    ensures OnUnitCircle(s, c)
  {
    hide SineEntry;
    var s0, c0, s1, c1 := Segment(i);
    s, c := Chord(s0, s1, f) / UNIT, Chord(c0, c1, f) / UNIT;
    SegmentNorm(s0, c0, s1, c1, f);
    InterpolateIsFloor(s0, s1, f);
    InterpolateIsFloor(c0, c1, f);
  }

  /** For every 32-bit phase the pair stays in range and close to the unit circle. */
  lemma SinCosBound(phase: uint32)
    ensures -32767 <= Sine(phase) <= 32767 && -32767 <= Cosine(phase) <= 32767
    ensures OnUnitCircle(Sine(phase), Cosine(phase))
  {
    var i, f := phase / 0x800_0000, phase / 0x800 % UNIT;
    InterpolateRange(i, f);
    InterpolateRange((i + 8) % 32, f);
    var s, c := SegmentValues(i, f);
  }

  // ---- polar to A/B ----

  const SCALE: int := 32767

  type int16 = x: int | -32768 <= x <= 32767

  /** C division truncates toward zero. */
  function TruncatedQuotient(a: int, d: int): int
    requires d > 0
  {
    if a >= 0 then a / d else -(-a / d)
  }

  /** `scale_reference`. */
  function ScaleReference(q15: int16, magnitude: int16): int16 {
    var product := q15 * magnitude;
    var scaled := if product >= 0 then product + SCALE / 2 else product - SCALE / 2;
    var rounded := TruncatedQuotient(scaled, SCALE);
    if rounded > 32767 then 32767 else if rounded < -32768 then -32768 else rounded
  }

  /** `phase_current_reference_from_polar`: (A, B). */
  function FromPolar(magnitude: int16, phase: uint32): (r: (int16, int16)) {
    SinCosBound(phase);
    (ScaleReference(Cosine(phase), magnitude), ScaleReference(Sine(phase), magnitude))
  }

  /**
   The scaled reference is the nearest integer to q15 * m / 32767, except for
   the one pair of inputs whose nearest integer does not fit in 16 bits.
   */
  lemma ScaleIsNearest(q15: int16, m: int16)
    requires -32767 <= q15 <= 32767
    ensures 2 * Magnitude(SCALE * ScaleReference(q15, m) - q15 * m) < SCALE
            <==> !(q15 == -32767 && m == -32768)
    ensures Magnitude(ScaleReference(q15, m)) <= Magnitude(m)
  {
    var product: int := q15 * m;
    ProductRange(q15, m);
    if product >= 0 {
      Rounding(product);
    } else {
      Rounding(-product);
    }
  }

  lemma Rounding(p: nat)
    ensures 2 * Magnitude(SCALE * ((p + SCALE / 2) / SCALE) - p) < SCALE
  {
  }

  lemma ProductRange(q15: int, m: int)
    requires -32767 <= q15 <= 32767 && -32768 <= m <= 32767
    ensures Magnitude(q15 * m) <= 32767 * Magnitude(m)
    ensures q15 * m == 32767 * 32768 <==> q15 == -32767 && m == -32768
  {
    assert Magnitude(q15 * m) == Magnitude(q15) * Magnitude(m);
    NonnegativeProduct(32767 - Magnitude(q15), Magnitude(m));
  }

  lemma ErrorAlongVector(c: int, s: int, e: int, g: int)
    requires OnUnitCircle(s, c)
    requires Magnitude(e) <= 16383 && Magnitude(g) <= 16383
    ensures Magnitude(c * e + s * g) <= 32769 * 23170
  {
    var w: int := Magnitude(c * e + s * g);
    CauchySchwarz(c, s, e, g);
    SmallSquare(e);
    SmallSquare(g);
    var n, k := c * c + s * s, e * e + g * g;
    NonnegativeProduct(32769 * 32769 - n, k);
    NonnegativeProduct(32769 * 32769, 23170 * 23170 - k);
    assert w * w == (c * e + s * g) * (c * e + s * g);
    if w > 32769 * 23170 {
      SquareMonotone(32769 * 23170 + 1, w);
    }
  }

  lemma SmallSquare(e: int)
    requires Magnitude(e) <= 16383
    ensures e * e <= 16383 * 16383
  {
    SquareMonotone(Magnitude(e), 16383);
  }

  /** By how many counts the rounded vector may exceed its magnitude. */
  function Slack(a: nat): nat {
    if a <= 4798 then 1 else if a <= 21181 then 2 else 3
  }

  /** A scaled vector plus a small error stays inside a slightly larger circle. */
  lemma ScaledVectorBound(m: int, c: int, s: int, e: int, g: int)
    requires Magnitude(m) <= 32768 && OnUnitCircle(s, c)
    requires Magnitude(e) <= 16383 && Magnitude(g) <= 16383
    ensures
      var x, y, r := c * m + e, s * m + g, SCALE * (Magnitude(m) + Slack(Magnitude(m)));
      x * x + y * y < r * r
  {
    var a: int, w: int, n := Magnitude(m), c * e + s * g, c * c + s * s;
    assert n * (m * m) <= 32769 * 32769 * (a * a) by {
      assert m * m == a * a;
      NonnegativeProduct(32769 * 32769 - n, m * m);
    }
    assert m * w <= a * (32769 * 23170) by {
      ErrorAlongVector(c, s, e, g);
      CrossTerm(m, w, 32769 * 23170);
    }
    SmallSquare(e);
    SmallSquare(g);
    SquareIdentity(m, c, s, e, g);
    BoundSquare(a);
  }

  lemma SquareIdentity(m: int, c: int, s: int, e: int, g: int)
    ensures (c * m + e) * (c * m + e) + (s * m + g) * (s * m + g)
         == (c * c + s * s) * (m * m) + 2 * (m * (c * e + s * g)) + (e * e + g * g)
  {
  }

  lemma CrossTerm(m: int, w: int, bound: int)
    requires Magnitude(w) <= bound
    ensures m * w <= Magnitude(m) * bound
  {
    assert m * w <= Magnitude(m) * Magnitude(w);
    NonnegativeProduct(Magnitude(m), bound - Magnitude(w));
  }

  lemma BoundSquare(a: int)
    requires 0 <= a <= 32768
    ensures
      var y := SCALE * (a + Slack(a));
      32769 * 32769 * (a * a) + 2 * (a * (32769 * 23170)) + 536848900 < y * y
  {
    var x, y := 32769 * a + 23170, SCALE * (a + Slack(a));
    SquareMonotone(x + 1, y);
    assert x * x == 32769 * 32769 * (a * a) + 2 * (a * (32769 * 23170)) + 536848900;
    assert (x + 1) * (x + 1) == x * x + 2 * x + 1;
  }

  /**
   For every 16-bit magnitude the A/B pair stays inside a circle at most three
   counts larger; up to 4798 counts, beyond the 4095 of the converters, it never
   exceeds the magnitude by a whole count. Away from the one saturating value
   each component is the nearest integer.
   */
  lemma PolarBound(m: int16, phase: uint32)
    ensures
      var (a, b) := FromPolar(m, phase);
      var r := Magnitude(m) + Slack(Magnitude(m));
      && (m != -32768 || Cosine(phase) != -32767 ==> 2 * Magnitude(SCALE * a - Cosine(phase) * m) < SCALE)
      && (m != -32768 || Sine(phase) != -32767 ==> 2 * Magnitude(SCALE * b - Sine(phase) * m) < SCALE)
      && Magnitude(a) <= Magnitude(m) && Magnitude(b) <= Magnitude(m)
      && a * a + b * b < r * r
  {
    SinCosBound(phase);
    PolarBoundAt(m, Cosine(phase), Sine(phase));
  }

  lemma PolarBoundAt(m: int16, c: int16, s: int16)
    requires OnUnitCircle(s, c) && -32767 <= c && -32767 <= s
    ensures
      var a, b := ScaleReference(c, m), ScaleReference(s, m);
      var r := Magnitude(m) + Slack(Magnitude(m));
      && (m != -32768 || c != -32767 ==> 2 * Magnitude(SCALE * a - c * m) < SCALE)
      && (m != -32768 || s != -32767 ==> 2 * Magnitude(SCALE * b - s * m) < SCALE)
      && Magnitude(a) <= Magnitude(m) && Magnitude(b) <= Magnitude(m)
      && a * a + b * b < r * r
  {
    hide ScaleReference, OnUnitCircle, Slack;
    var a: int, b: int := ScaleReference(c, m), ScaleReference(s, m);
    ScaleIsNearest(c, m);
    ScaleIsNearest(s, m);
    if m == -32768 && c == -32767 {
      SaturatedBound(c, s);
    } else if m == -32768 && s == -32767 {
      SaturatedBound(s, c);
    } else {
      ScaledVectorBound(m, c, s, SCALE * a - c * m, SCALE * b - s * m);
      Unscale(a, b, Magnitude(m) + Slack(Magnitude(m)));
    }
  }

  /** The saturating component is 32767 and leaves almost nothing for the other. */
  lemma SaturatedBound(c: int16, s: int16)
    requires (OnUnitCircle(s, c) || OnUnitCircle(c, s)) && c == -32767 && -32767 <= s
    ensures
      var a, b := ScaleReference(c, -32768), ScaleReference(s, -32768);
      a * a + b * b < (32768 + Slack(32768)) * (32768 + Slack(32768))
  {
    hide ScaleReference;
    var b: int := ScaleReference(s, -32768);
    OtherComponent(c, s);
    SmallRoot(s);
    ScaleIsNearest(s, -32768);
    SmallResult(s, b);
    SquareMonotone(Magnitude(b), 500);
    SaturatedResult();
  }

  lemma OtherComponent(c: int, s: int)
    requires (OnUnitCircle(s, c) || OnUnitCircle(c, s)) && c == -32767
    ensures s * s <= 131072
  {}

  lemma SmallResult(s: int, b: int)
    requires Magnitude(s) <= 363 && 2 * Magnitude(SCALE * b - s * -32768) < SCALE
    ensures Magnitude(b) <= 500
  {}

  lemma SaturatedResult()
    ensures ScaleReference(-32767, -32768) == 32767
  {}

  lemma SmallRoot(s: int)
    requires s * s <= 131072
    ensures Magnitude(s) <= 363
  {
    if Magnitude(s) > 363 {
      SquareMonotone(364, Magnitude(s));
    }
  }

  /** Beyond the range of the converters a whole count can be exceeded. */
  lemma OvershootExists()
    ensures
      var (a, b) := FromPolar(9833, 0x97FF_4800);
      a * a + b * b >= 9834 * 9834
  {
    hide SinCos, ScaleReference;
    OvershootPhase();
    OvershootScaled();
  }

  lemma OvershootPhase()
    ensures SinCos(0x97FF_4800) == (-18203, -27247)
  {
    hide Interpolate;
    assert Interpolate(18, 65513) == -18203 && Interpolate(26, 65513) == -27247 by {
      OvershootEntries();
    }
  }

  lemma OvershootEntries()
    ensures Interpolate(18, 65513) == -18203 && Interpolate(26, 65513) == -27247
  {}

  lemma OvershootScaled()
    ensures ScaleReference(-27247, 9833) == -8177 && ScaleReference(-18203, 9833) == -5463
  {}

  lemma Unscale(a: int, b: int, r: int)
    requires (SCALE * a) * (SCALE * a) + (SCALE * b) * (SCALE * b) < (SCALE * r) * (SCALE * r)
    ensures a * a + b * b < r * r
  {
    assert (SCALE * a) * (SCALE * a) == SCALE * SCALE * (a * a);
    assert (SCALE * b) * (SCALE * b) == SCALE * SCALE * (b * b);
    assert (SCALE * r) * (SCALE * r) == SCALE * SCALE * (r * r);
  }
}
