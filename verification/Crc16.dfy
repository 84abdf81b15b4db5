/**
 CRC-16/CCITT-FALSE as tools/mks57d_rs485.py computes it: polynomial 0x1021,
 initial value 0xFFFF, no reflection, no final xor. A byte is a `bv8` and the
 masked Python accumulator is a `bv16`.
 */
module Crc16 {
  type byte = bv8

  const INITIAL: bv16 := 0xFFFF

  function ShiftBit(crc: bv16): bv16 {
    if crc & 0x8000 != 0 then (crc << 1) ^ 0x1021 else crc << 1
  }

  lemma ShiftSet(a: bv16)
    requires a & 0x8000 != 0
    ensures ShiftBit(a) == (a << 1) ^ 0x1021
  {}

  lemma ShiftClear(a: bv16)
    requires a & 0x8000 == 0
    ensures ShiftBit(a) == a << 1
  {}

  function ShiftByte(crc: bv16): bv16 {
    ShiftBit(ShiftBit(ShiftBit(ShiftBit(ShiftBit(ShiftBit(ShiftBit(ShiftBit(crc))))))))
  }

  /** The byte goes into the high half of the accumulator. */
  function Mix(crc: bv16, b: byte): bv16 {
    crc ^ ((b as bv16) << 8)
  }

  function AddByte(crc: bv16, b: byte): bv16 {
    ShiftByte(Mix(crc, b))
  }

  /** The accumulator after absorbing `data`, starting from `crc`. */
  function Absorb(crc: bv16, data: seq<byte>): bv16
    decreases data
  {
    if data == [] then crc else Absorb(AddByte(crc, data[0]), data[1..])
  }

  function Checksum(data: seq<byte>): bv16 {
    Absorb(INITIAL, data)
  }

  ghost function ShiftBits(crc: bv16, n: nat): bv16 {
    if n == 0 then crc else ShiftBit(ShiftBits(crc, n - 1))
  }

  lemma EightBitsAreAByte(crc: bv16)
    ensures ShiftBits(crc, 8) == ShiftByte(crc)
  {
    hide ShiftBit;
    assert ShiftBits(crc, 1) == ShiftBit(ShiftBits(crc, 0));
    assert ShiftBits(crc, 2) == ShiftBit(ShiftBit(crc));
    assert ShiftBits(crc, 4) == ShiftBit(ShiftBit(ShiftBits(crc, 2)));
    assert ShiftBits(crc, 6) == ShiftBit(ShiftBit(ShiftBits(crc, 4)));
  }

  /** `crc16_ccitt_false`. */
  method ComputeChecksum(data: seq<byte>) returns (crc: bv16)
    ensures crc == Checksum(data)
  {
    hide AddByte, ShiftByte;
    crc := 0xFFFF;
    for i := 0 to |data|
      invariant Absorb(crc, data[i..]) == Checksum(data)
    {
      crc := ComputeByte(crc, data[i]);
      assert data[i..][0] == data[i] && data[i..][1..] == data[i + 1..];
    }
    assert data[|data|..] == [];
  }

  /** The body of the loop over bytes, with its loop over bits. */
  method ComputeByte(start: bv16, b: byte) returns (crc: bv16)
    ensures crc == AddByte(start, b)
  {
    hide ShiftBit, ShiftByte;
    crc := start ^ ((b as bv16) << 8);
    ghost var mixed := crc;
    for bit := 0 to 8
      invariant crc == ShiftBits(mixed, bit)
    {
      crc := ComputeBit(crc);
    }
    EightBitsAreAByte(mixed);
  }

  method ComputeBit(start: bv16) returns (crc: bv16)
    ensures crc == ShiftBit(start)
  {
    crc := if start & 0x8000 != 0 then (start << 1) ^ 0x1021 else start << 1;
  }

  // ---- a shift loses nothing ----

  /** Undoes one shift: only the feedback can have left an odd word. */
  ghost function UnshiftBit(crc: bv16): bv16 {
    if crc & 1 != 0 then ((crc ^ 0x1021) >> 1) | 0x8000 else crc >> 1
  }

  lemma UnshiftFeedback(a: bv16)
    requires a & 0x8000 != 0
    ensures ((a << 1) ^ 0x1021) & 1 != 0
    ensures ((((a << 1) ^ 0x1021) ^ 0x1021) >> 1) | 0x8000 == a
  {
  }

  lemma UnshiftPlain(a: bv16)
    requires a & 0x8000 == 0
    ensures (a << 1) & 1 == 0
    ensures (a << 1) >> 1 == a
  {
  }

  lemma UnshiftShift(a: bv16)
    ensures UnshiftBit(ShiftBit(a)) == a
  {
    if a & 0x8000 != 0 {
      UnshiftFeedback(a);
      assert ShiftBit(a) == (a << 1) ^ 0x1021;
    } else {
      UnshiftPlain(a);
      assert ShiftBit(a) == a << 1;
    }
  }

  lemma ShiftBitInjective(a: bv16, b: bv16)
    requires ShiftBit(a) == ShiftBit(b)
    ensures a == b
  {
    hide ShiftBit, UnshiftBit;
    UnshiftShift(a);
    UnshiftShift(b);
  }

  lemma {:induction false} ShiftBitsInjective(a: bv16, b: bv16, n: nat)
    requires ShiftBits(a, n) == ShiftBits(b, n)
    ensures a == b
  {
    hide ShiftBit;
    if n > 0 {
      ShiftBitInjective(ShiftBits(a, n - 1), ShiftBits(b, n - 1));
      ShiftBitsInjective(a, b, n - 1);
    }
  }

  lemma ShiftByteInjective(a: bv16, b: bv16)
    requires ShiftByte(a) == ShiftByte(b)
    ensures a == b
  {
    hide ShiftByte, ShiftBits;
    EightBitsAreAByte(a);
    EightBitsAreAByte(b);
    ShiftBitsInjective(a, b, 8);
  }

  lemma MixInjective(a: bv16, b: bv16, c: byte)
    requires Mix(a, c) == Mix(b, c)
    ensures a == b
  {
  }

  /** Equal bytes never bring two different accumulators together again. */
  lemma {:induction false} AbsorbInjective(a: bv16, b: bv16, data: seq<byte>)
    requires Absorb(a, data) == Absorb(b, data)
    ensures a == b
    decreases data
  {
    hide Mix, ShiftByte;
    if data != [] {
      AbsorbInjective(AddByte(a, data[0]), AddByte(b, data[0]), data[1..]);
      ShiftByteInjective(Mix(a, data[0]), Mix(b, data[0]));
      MixInjective(a, b, data[0]);
    }
  }

  lemma {:induction false} AbsorbAppend(crc: bv16, a: seq<byte>, b: seq<byte>)
    ensures Absorb(crc, a + b) == Absorb(Absorb(crc, a), b)
    decreases a
  {
    hide AddByte;
    if a == [] {
      assert a + b == b;
    } else {
      assert (a + b)[0] == a[0] && (a + b)[1..] == a[1..] + b;
      AbsorbAppend(AddByte(crc, a[0]), a[1..], b);
    }
  }

  // ---- two adjacent bytes are told apart ----

  function Low(crc: bv16): bv16 {
    crc & 0xFF
  }

  lemma LowByteDecides(a: bv16, b: bv16)
    requires Low(a) == Low(b) && Low(ShiftByte(a)) == Low(ShiftByte(b))
    ensures a == b
  {
  }

  lemma MixKeepsLow(crc: bv16, a: byte)
    ensures Low(Mix(crc, a)) == Low(crc)
  {
  }

  lemma MixShowsByte(crc: bv16, a: byte, b: byte)
    requires Mix(crc, a) == Mix(crc, b)
    ensures a == b
  {
  }

  /** From one accumulator, different byte pairs lead to different accumulators. */
  lemma PairInjective(crc: bv16, a0: byte, a1: byte, b0: byte, b1: byte)
    requires AddByte(AddByte(crc, a0), a1) == AddByte(AddByte(crc, b0), b1)
    ensures a0 == b0 && a1 == b1
  {
    hide ShiftByte, Mix, Low;
    var s, t := AddByte(crc, a0), AddByte(crc, b0);
    ShiftByteInjective(Mix(s, a1), Mix(t, b1));
    MixKeepsLow(s, a1);
    MixKeepsLow(t, b1);
    MixKeepsLow(crc, a0);
    MixKeepsLow(crc, b0);
    LowByteDecides(Mix(crc, a0), Mix(crc, b0));
    MixShowsByte(crc, a0, b0);
    MixShowsByte(s, a1, b1);
  }

  // ---- acceptance and error detection ----

  /** A big-endian 16-bit field. */
  function Word(hi: byte, lo: byte): bv16 {
    ((hi as bv16) << 8) | (lo as bv16)
  }

  function HighOf(w: bv16): byte {
    (w >> 8) as byte
  }

  function LowOf(w: bv16): byte {
    (w & 0xFF) as byte
  }

  lemma WordParts(w: bv16)
    ensures Word(HighOf(w), LowOf(w)) == w
  {
  }

  /** The check of `decode_response`: the last two bytes hold the checksum of the rest. */
  predicate Passes(frame: seq<byte>)
    requires |frame| >= 2
  {
    var n := |frame| - 2;
    Checksum(frame[..n]) == Word(frame[n], frame[n + 1])
  }

  lemma MatchingFieldCancels(hi: byte, lo: byte)
    ensures Mix(Word(hi, lo), hi) == lo as bv16
    ensures Mix((lo as bv16) << 8, lo) == 0
  {
  }

  lemma ShiftSmall(lo: byte)
    ensures ShiftByte(lo as bv16) == (lo as bv16) << 8
    ensures ShiftByte(0) == 0
  {
  }

  lemma AbsorbPair(crc: bv16, x: seq<byte>)
    requires |x| == 2
    ensures Absorb(crc, x) == AddByte(AddByte(crc, x[0]), x[1])
  {
    hide AddByte;
    assert x[1..][1..] == [];
    assert Absorb(AddByte(crc, x[0]), x[1..]) == AddByte(AddByte(crc, x[0]), x[1]);
  }

  lemma ResidueStep(crc: bv16, hi: byte, lo: byte)
    ensures Absorb(crc, [hi, lo]) == 0 <==> crc == Word(hi, lo)
  {
    hide ShiftByte, Mix, Word;
    MatchingFieldCancels(hi, lo);
    ShiftSmall(lo);
    AbsorbPair(Word(hi, lo), [hi, lo]);
    if Absorb(crc, [hi, lo]) == 0 {
      AbsorbInjective(crc, Word(hi, lo), [hi, lo]);
    }
  }

  /** A frame passes exactly when body and checksum together leave no residue. */
  lemma PassesIffZeroResidue(frame: seq<byte>)
    requires |frame| >= 2
    ensures Passes(frame) <==> Checksum(frame) == 0
  {
    hide AddByte, Word;
    var n := |frame| - 2;
    assert frame == frame[..n] + [frame[n], frame[n + 1]];
    AbsorbAppend(INITIAL, frame[..n], [frame[n], frame[n + 1]]);
    ResidueStep(Checksum(frame[..n]), frame[n], frame[n + 1]);
  }

  /** Equal outside the bytes k and k + 1. */
  ghost predicate DifferOnlyAt(f: seq<byte>, g: seq<byte>, k: nat) {
    && |f| == |g|
    && forall i :: 0 <= i < |f| && i != k && i != k + 1 ==> f[i] == g[i]
  }

  lemma SplitAround(f: seq<byte>, g: seq<byte>, j: nat)
    requires j + 2 <= |f| == |g|
    requires forall i :: 0 <= i < |f| && i != j && i != j + 1 ==> f[i] == g[i]
    ensures f == f[..j] + ([f[j], f[j + 1]] + f[j + 2..])
    ensures g == f[..j] + ([g[j], g[j + 1]] + f[j + 2..])
  {
  }

  /**
   Error detection: corrupting one byte, or two adjacent ones, of a frame that
   passes always yields a frame that fails, wherever the damage is and however
   long the frame; the checksum field itself is no exception.
   */
  lemma DamageIsDetected(f: seq<byte>, g: seq<byte>, k: nat)
    requires |f| >= 2 && k < |f| && DifferOnlyAt(f, g, k) && f != g
    requires Passes(f)
    ensures !Passes(g)
  {
    hide AddByte, Word;
    PassesIffZeroResidue(f);
    PassesIffZeroResidue(g);
    var j := if k + 2 <= |f| then k else k - 1;
    SplitAround(f, g, j);
    if Passes(g) {
      MiddleIsDetermined(f[..j], [f[j], f[j + 1]], [g[j], g[j + 1]], f[j + 2..]);
    }
  }

  lemma MiddleIsDetermined(prefix: seq<byte>, x: seq<byte>, y: seq<byte>, suffix: seq<byte>)
    requires |x| == |y| == 2
    requires Checksum(prefix + (x + suffix)) == Checksum(prefix + (y + suffix))
    ensures x == y
  {
    hide AddByte;
    var crc := Checksum(prefix);
    AbsorbAppend(INITIAL, prefix, x + suffix);
    AbsorbAppend(INITIAL, prefix, y + suffix);
    AbsorbAppend(crc, x, suffix);
    AbsorbAppend(crc, y, suffix);
    AbsorbInjective(Absorb(crc, x), Absorb(crc, y), suffix);
    AbsorbPair(crc, x);
    AbsorbPair(crc, y);
    PairInjective(crc, x[0], x[1], y[0], y[1]);
  }

  // ---- the published check value ----

  lemma AbsorbAt(crc: bv16, data: seq<byte>, i: nat, next: bv16)
    requires i < |data| && AddByte(crc, data[i]) == next
    ensures Absorb(crc, data[i..]) == Absorb(next, data[i + 1..])
  {
    hide AddByte;
    assert data[i..][1..] == data[i + 1..];
  }

  lemma AbsorbNothing(crc: bv16)
    ensures Absorb(crc, []) == crc
  {}

  lemma CheckSteps()
    ensures AddByte(0xFFFF, 0x31) == 0xC782
    ensures AddByte(0xC782, 0x32) == 0x3DBA
    ensures AddByte(0x3DBA, 0x33) == 0x5BCE
    ensures AddByte(0x5BCE, 0x34) == 0x5349
    ensures AddByte(0x5349, 0x35) == 0x4560
    ensures AddByte(0x4560, 0x36) == 0x2EF4
    ensures AddByte(0x2EF4, 0x37) == 0x7718
    ensures AddByte(0x7718, 0x38) == 0xA12B
    ensures AddByte(0xA12B, 0x39) == 0x29B1
  {}

  /** CRC-16/CCITT-FALSE of the nine digits "123456789" is 0x29B1. */
  lemma CheckValue(digits: seq<byte>)
    requires |digits| == 9
    requires digits[0] == 0x31 && digits[1] == 0x32 && digits[2] == 0x33
    requires digits[3] == 0x34 && digits[4] == 0x35 && digits[5] == 0x36
    requires digits[6] == 0x37 && digits[7] == 0x38 && digits[8] == 0x39
    ensures Checksum(digits) == 0x29B1
  {
    hide AddByte, Absorb;
    CheckSteps();
    AbsorbAt(0xFFFF, digits, 0, 0xC782);
    AbsorbAt(0xC782, digits, 1, 0x3DBA);
    AbsorbAt(0x3DBA, digits, 2, 0x5BCE);
    AbsorbAt(0x5BCE, digits, 3, 0x5349);
    AbsorbAt(0x5349, digits, 4, 0x4560);
    AbsorbAt(0x4560, digits, 5, 0x2EF4);
    AbsorbAt(0x2EF4, digits, 6, 0x7718);
    AbsorbAt(0x7718, digits, 7, 0xA12B);
    AbsorbAt(0xA12B, digits, 8, 0x29B1);
    assert digits[0..] == digits && digits[9..] == [];
    AbsorbNothing(0x29B1);
  }
}
