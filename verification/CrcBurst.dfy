/**
 Burst errors against the CRC of tools/mks57d_rs485.py: the accumulator is linear
 over exclusive or, so whether damage is seen depends on the damage alone.
 */
module CrcBurst {
  import opened Crc16

  function Xor(a: bv16, b: bv16): bv16 { a ^ b }

  // ---- linearity ----

  lemma TopOfXor(a: bv16, b: bv16)
    ensures Xor(a, b) & 0x8000 == Xor(a & 0x8000, b & 0x8000)
  {}

  lemma ShiftOfXor(a: bv16, b: bv16)
    ensures Xor(a << 1, b << 1) == Xor(a, b) << 1
  {
    hide Xor;
    XorIs(a << 1, b << 1);
    XorIs(a, b);
    RawShift(a, b);
  }

  lemma XorIs(a: bv16, b: bv16)
    ensures Xor(a, b) == a ^ b
  {}

  lemma RawShift(a: bv16, b: bv16)
    ensures (a << 1) ^ (b << 1) == (a ^ b) << 1
  {}

  lemma FeedbackCancels(x: bv16, y: bv16)
    ensures Xor(x ^ 0x1021, y ^ 0x1021) == Xor(x, y)
  {
    hide Xor;
    XorIs(x ^ 0x1021, y ^ 0x1021);
    XorIs(x, y);
    RawCancel(x, y);
  }

  lemma FeedbackMoves(x: bv16, y: bv16)
    ensures Xor(x ^ 0x1021, y) == Xor(x, y) ^ 0x1021
  {
    hide Xor;
    XorIs(x ^ 0x1021, y);
    XorIs(x, y);
    RawMove(x, y);
  }

  lemma RawCancel(x: bv16, y: bv16)
    ensures (x ^ 0x1021) ^ (y ^ 0x1021) == x ^ y
  {}

  lemma RawMove(x: bv16, y: bv16)
    ensures (x ^ 0x1021) ^ y == (x ^ y) ^ 0x1021
  {}

  lemma Commutes(a: bv16, b: bv16)
    ensures Xor(a, b) == Xor(b, a)
  {}

  lemma TopBits(a: bv16, b: bv16)
    ensures a & 0x8000 == 0 && b & 0x8000 == 0 ==> Xor(a & 0x8000, b & 0x8000) == 0
    ensures a & 0x8000 != 0 && b & 0x8000 != 0 ==> Xor(a & 0x8000, b & 0x8000) == 0
    ensures a & 0x8000 != 0 && b & 0x8000 == 0 ==> Xor(a & 0x8000, b & 0x8000) != 0
  {}

  lemma BothSet(a: bv16, b: bv16)
    requires a & 0x8000 != 0 && b & 0x8000 != 0
    ensures ShiftBit(Xor(a, b)) == Xor(ShiftBit(a), ShiftBit(b))
  {
    hide ShiftBit, Xor;
    ShiftSet(a);
    ShiftSet(b);
    FeedbackCancels(a << 1, b << 1);
    ShiftOfXor(a, b);
    TopOfXor(a, b);
    TopBits(a, b);
    ShiftClear(Xor(a, b));
  }

  lemma OneSet(a: bv16, b: bv16)
    requires a & 0x8000 != 0 && b & 0x8000 == 0
    ensures ShiftBit(Xor(a, b)) == Xor(ShiftBit(a), ShiftBit(b))
  {
    hide ShiftBit, Xor;
    ShiftSet(a);
    ShiftClear(b);
    FeedbackMoves(a << 1, b << 1);
    ShiftOfXor(a, b);
    TopOfXor(a, b);
    TopBits(a, b);
    ShiftSet(Xor(a, b));
  }

  lemma NoneSet(a: bv16, b: bv16)
    requires a & 0x8000 == 0 && b & 0x8000 == 0
    ensures ShiftBit(Xor(a, b)) == Xor(ShiftBit(a), ShiftBit(b))
  {
    hide ShiftBit, Xor;
    ShiftClear(a);
    ShiftClear(b);
    ShiftOfXor(a, b);
    TopOfXor(a, b);
    TopBits(a, b);
    ShiftClear(Xor(a, b));
  }

  lemma ShiftBitLinear(a: bv16, b: bv16)
    ensures ShiftBit(Xor(a, b)) == Xor(ShiftBit(a), ShiftBit(b))
  {
    hide ShiftBit, Xor;
    if a & 0x8000 != 0 {
      if b & 0x8000 != 0 {
        BothSet(a, b);
      } else {
        OneSet(a, b);
      }
    } else if b & 0x8000 != 0 {
      OneSet(b, a);
      Commutes(a, b);
      Commutes(ShiftBit(a), ShiftBit(b));
    } else {
      NoneSet(a, b);
    }
  }

  lemma {:induction false} ShiftBitsLinear(a: bv16, b: bv16, n: nat)
    ensures ShiftBits(Xor(a, b), n) == Xor(ShiftBits(a, n), ShiftBits(b, n))
  {
    hide ShiftBit, Xor;
    if n > 0 {
      ShiftBitsLinear(a, b, n - 1);
      ShiftBitLinear(ShiftBits(a, n - 1), ShiftBits(b, n - 1));
    }
  }

  function XorByte(a: byte, b: byte): byte { a ^ b }

  lemma MixLinear(a: bv16, b: bv16, x: byte, y: byte)
    ensures Mix(Xor(a, b), XorByte(x, y)) == Xor(Mix(a, x), Mix(b, y))
  {}

  lemma AddByteLinear(a: bv16, b: bv16, x: byte, y: byte)
    ensures AddByte(Xor(a, b), XorByte(x, y)) == Xor(AddByte(a, x), AddByte(b, y))
  {
    hide ShiftByte, Mix, Xor, XorByte;
    MixLinear(a, b, x, y);
    EightBitsAreAByte(Mix(a, x));
    EightBitsAreAByte(Mix(b, y));
    EightBitsAreAByte(Xor(Mix(a, x), Mix(b, y)));
    ShiftBitsLinear(Mix(a, x), Mix(b, y), 8);
  }

  // ---- bursts ----

  /** The damage to three bytes fits in 16 consecutive bits: w low bits of the first, 8 - w high bits of the last. */
  predicate FitsBurst(e0: byte, e2: byte, w: nat) {
    w <= 8 && e0 >> w == 0 && e2 << (8 - w) == 0
  }

  lemma BurstOverTwo(e0: byte, e1: byte, e2: byte, w: nat)
    requires FitsBurst(e0, e2, w)
    requires AddByte(AddByte(0, e0), e1) == (e2 as bv16) << 8
    ensures e0 == 0 && e1 == 0
  {
    if w == 0 {
    } else if w == 1 {
    } else if w == 2 {
    } else if w == 3 {
    } else if w == 4 {
    } else if w == 5 {
    } else if w == 6 {
    } else if w == 7 {
    }
  }

  lemma NothingAdded()
    ensures AddByte(AddByte(0, 0), 0) == 0
  {}

  lemma LastByteCancels(c: bv16, e: byte)
    requires Mix(c, e) == 0
    ensures c == (e as bv16) << 8
    ensures c == 0 ==> e == 0
  {}

  /** No burst of at most 16 bits leaves an empty accumulator empty. */
  lemma BurstIsSeen(e0: byte, e1: byte, e2: byte, w: nat)
    requires FitsBurst(e0, e2, w)
    requires AddByte(AddByte(AddByte(0, e0), e1), e2) == 0
    ensures e0 == 0 && e1 == 0 && e2 == 0
  {
    hide ShiftByte, Mix, FitsBurst;
    var c := AddByte(AddByte(0, e0), e1);
    ShiftSmall(0);
    ShiftByteInjective(Mix(c, e2), 0);
    LastByteCancels(c, e2);
    BurstOverTwo(e0, e1, e2, w);
    NothingAdded();
  }

  lemma SameXor(a: bv16)
    ensures Xor(a, a) == 0
  {}

  lemma XorByteZero(a: byte, b: byte)
    requires XorByte(a, b) == 0
    ensures a == b
  {}

  /** Three bytes that differ by a burst drive any accumulator apart. */
  lemma TripleApart(c: bv16, x: seq<byte>, y: seq<byte>, w: nat)
    requires |x| == |y| == 3 && FitsBurst(XorByte(x[0], y[0]), XorByte(x[2], y[2]), w)
    requires Absorb(c, x) == Absorb(c, y)
    ensures x == y
  {
    hide AddByte, Xor, XorByte, FitsBurst;
    AbsorbTriple(c, x);
    AbsorbTriple(c, y);
    var e0, e1, e2 := XorByte(x[0], y[0]), XorByte(x[1], y[1]), XorByte(x[2], y[2]);
    var a1, b1 := AddByte(c, x[0]), AddByte(c, y[0]);
    var a2, b2 := AddByte(a1, x[1]), AddByte(b1, y[1]);
    SameXor(c);
    AddByteLinear(c, c, x[0], y[0]);
    AddByteLinear(a1, b1, x[1], y[1]);
    AddByteLinear(a2, b2, x[2], y[2]);
    SameXor(AddByte(a2, x[2]));
    BurstIsSeen(e0, e1, e2, w);
    XorByteZero(x[0], y[0]);
    XorByteZero(x[1], y[1]);
    XorByteZero(x[2], y[2]);
  }

  lemma AbsorbTriple(c: bv16, x: seq<byte>)
    requires |x| == 3
    ensures Absorb(c, x) == AddByte(AddByte(AddByte(c, x[0]), x[1]), x[2])
  {
    hide AddByte;
    AbsorbPair(AddByte(c, x[0]), x[1..]);
  }

  /** Equal outside three bytes from k, where the difference spans at most 16 bits at any alignment. */
  ghost predicate DifferByBurst(f: seq<byte>, g: seq<byte>, k: nat, w: nat) {
    && k + 3 <= |f| == |g|
    && (forall i :: 0 <= i < |f| && !(k <= i < k + 3) ==> f[i] == g[i])
    && FitsBurst(XorByte(f[k], g[k]), XorByte(f[k + 2], g[k + 2]), w)
  }

  /** Every burst of at most 16 bits in a passing frame of any length makes it fail. */
  lemma BurstIsDetected(f: seq<byte>, g: seq<byte>, k: nat, w: nat)
    requires DifferByBurst(f, g, k, w) && f != g && Passes(f)
    ensures !Passes(g)
  {
    hide AddByte, Word, FitsBurst, Absorb;
    PassesIffZeroResidue(f);
    PassesIffZeroResidue(g);
    var prefix, suffix, x, y := f[..k], f[k + 3..], f[k..k + 3], g[k..k + 3];
    assert f == prefix + (x + suffix);
    assert g == prefix + (y + suffix);
    if Passes(g) {
      var crc := Checksum(prefix);
      AbsorbAppend(INITIAL, prefix, x + suffix);
      AbsorbAppend(INITIAL, prefix, y + suffix);
      AbsorbAppend(crc, x, suffix);
      AbsorbAppend(crc, y, suffix);
      AbsorbInjective(Absorb(crc, x), Absorb(crc, y), suffix);
      TripleApart(crc, x, y, w);
    }
  }
}
