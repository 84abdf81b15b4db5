/**
 Odd damage against the CRC of tools/mks57d_rs485.py: the polynomial has an even
 number of terms, so every frame that passes has an even number of one bits.
 */
module CrcParity {
  import opened Crc16

  // ---- parity, four bits at a time ----

  predicate Odd4(a: bool, b: bool, c: bool, d: bool) {
    (a != b) != (c != d)
  }

  predicate Nibble0(a: bv16) { Odd4(a & 0x0001 != 0, a & 0x0002 != 0, a & 0x0004 != 0, a & 0x0008 != 0) }
  predicate Nibble1(a: bv16) { Odd4(a & 0x0010 != 0, a & 0x0020 != 0, a & 0x0040 != 0, a & 0x0080 != 0) }
  predicate Nibble2(a: bv16) { Odd4(a & 0x0100 != 0, a & 0x0200 != 0, a & 0x0400 != 0, a & 0x0800 != 0) }
  predicate Nibble3(a: bv16) { Odd4(a & 0x1000 != 0, a & 0x2000 != 0, a & 0x4000 != 0, a & 0x8000 != 0) }

  /** The accumulator has an odd number of one bits. */
  predicate Odd(a: bv16) {
    (Nibble0(a) != Nibble1(a)) != (Nibble2(a) != Nibble3(a))
  }

  /** A shift hands the top bit of each nibble on to the next. */
  lemma ShiftNibbles(a: bv16)
    ensures Nibble0(a << 1) == (Nibble0(a) != (a & 0x0008 != 0))
    ensures Nibble1(a << 1) == (Nibble1(a) != ((a & 0x0008 != 0) != (a & 0x0080 != 0)))
    ensures Nibble2(a << 1) == (Nibble2(a) != ((a & 0x0080 != 0) != (a & 0x0800 != 0)))
    ensures Nibble3(a << 1) == (Nibble3(a) != ((a & 0x0800 != 0) != (a & 0x8000 != 0)))
  {}

  /** The feedback flips one bit in three nibbles. */
  lemma FeedbackNibbles(a: bv16)
    ensures Nibble0(a ^ 0x1021) != Nibble0(a)
    ensures Nibble1(a ^ 0x1021) != Nibble1(a)
    ensures Nibble2(a ^ 0x1021) == Nibble2(a)
    ensures Nibble3(a ^ 0x1021) != Nibble3(a)
  {}

  /** What a shift takes from one nibble it gives to the next, but for the top bit. */
  lemma ShiftParity(a: bv16)
    ensures Odd(a << 1) == (Odd(a) != (a & 0x8000 != 0))
  {
    hide Nibble0, Nibble1, Nibble2, Nibble3;
    ShiftNibbles(a);
    Telescope(Nibble0(a), Nibble1(a), Nibble2(a), Nibble3(a),
              a & 0x0008 != 0, a & 0x0080 != 0, a & 0x0800 != 0, a & 0x8000 != 0);
  }

  lemma Telescope(n0: bool, n1: bool, n2: bool, n3: bool, t0: bool, t1: bool, t2: bool, t3: bool)
    ensures (((n0 != t0) != (n1 != (t0 != t1))) != ((n2 != (t1 != t2)) != (n3 != (t2 != t3))))
         == (((n0 != n1) != (n2 != n3)) != t3)
  {}

  lemma FeedbackParity(a: bv16)
    ensures Odd(a ^ 0x1021) != Odd(a)
  {
    hide Nibble0, Nibble1, Nibble2, Nibble3;
    FeedbackNibbles(a);
  }

  /** The bit shifted out and the feedback it causes cancel. */
  lemma ShiftKeepsParity(a: bv16)
    ensures Odd(ShiftBit(a)) == Odd(a)
  {
    hide Odd, ShiftBit;
    ShiftParity(a);
    if a & 0x8000 != 0 {
      ShiftSet(a);
      FeedbackParity(a << 1);
    } else {
      ShiftClear(a);
    }
  }

  lemma {:induction false} ShiftsKeepParity(a: bv16, n: nat)
    ensures Odd(ShiftBits(a, n)) == Odd(a)
  {
    hide Odd, ShiftBit;
    if n > 0 {
      ShiftsKeepParity(a, n - 1);
      ShiftKeepsParity(ShiftBits(a, n - 1));
    }
  }

  predicate LowNibble(b: byte) { Odd4(b & 0x01 != 0, b & 0x02 != 0, b & 0x04 != 0, b & 0x08 != 0) }
  predicate HighNibble(b: byte) { Odd4(b & 0x10 != 0, b & 0x20 != 0, b & 0x40 != 0, b & 0x80 != 0) }

  predicate OddByte(b: byte) { LowNibble(b) != HighNibble(b) }

  lemma MixBits2(crc: bv16, b: byte)
    ensures (Mix(crc, b) & 0x0100 != 0) == ((crc & 0x0100 != 0) != (b & 0x01 != 0))
    ensures (Mix(crc, b) & 0x0200 != 0) == ((crc & 0x0200 != 0) != (b & 0x02 != 0))
    ensures (Mix(crc, b) & 0x0400 != 0) == ((crc & 0x0400 != 0) != (b & 0x04 != 0))
    ensures (Mix(crc, b) & 0x0800 != 0) == ((crc & 0x0800 != 0) != (b & 0x08 != 0))
  {}

  lemma MixBits3(crc: bv16, b: byte)
    ensures (Mix(crc, b) & 0x1000 != 0) == ((crc & 0x1000 != 0) != (b & 0x10 != 0))
    ensures (Mix(crc, b) & 0x2000 != 0) == ((crc & 0x2000 != 0) != (b & 0x20 != 0))
    ensures (Mix(crc, b) & 0x4000 != 0) == ((crc & 0x4000 != 0) != (b & 0x40 != 0))
    ensures (Mix(crc, b) & 0x8000 != 0) == ((crc & 0x8000 != 0) != (b & 0x80 != 0))
  {}

  lemma Odd4Xor(a: bool, b: bool, c: bool, d: bool, e: bool, f: bool, g: bool, h: bool)
    ensures Odd4(a != e, b != f, c != g, d != h) == (Odd4(a, b, c, d) != Odd4(e, f, g, h))
  {}

  lemma MixNibble2(crc: bv16, b: byte)
    ensures Nibble2(Mix(crc, b)) == (Nibble2(crc) != LowNibble(b))
  {
    hide Mix, Odd4;
    MixBits2(crc, b);
    Odd4Xor(crc & 0x0100 != 0, crc & 0x0200 != 0, crc & 0x0400 != 0, crc & 0x0800 != 0,
            b & 0x01 != 0, b & 0x02 != 0, b & 0x04 != 0, b & 0x08 != 0);
  }

  lemma MixNibble3(crc: bv16, b: byte)
    ensures Nibble3(Mix(crc, b)) == (Nibble3(crc) != HighNibble(b))
  {
    hide Mix, Odd4;
    MixBits3(crc, b);
    Odd4Xor(crc & 0x1000 != 0, crc & 0x2000 != 0, crc & 0x4000 != 0, crc & 0x8000 != 0,
            b & 0x10 != 0, b & 0x20 != 0, b & 0x40 != 0, b & 0x80 != 0);
  }

  lemma MixLowNibbles(crc: bv16, b: byte)
    ensures Nibble0(Mix(crc, b)) == Nibble0(crc) && Nibble1(Mix(crc, b)) == Nibble1(crc)
  {}

  lemma MixNibbles(crc: bv16, b: byte)
    ensures Nibble0(Mix(crc, b)) == Nibble0(crc) && Nibble1(Mix(crc, b)) == Nibble1(crc)
    ensures Nibble2(Mix(crc, b)) == (Nibble2(crc) != LowNibble(b))
    ensures Nibble3(Mix(crc, b)) == (Nibble3(crc) != HighNibble(b))
  {
    hide Mix, Nibble0, Nibble1, Nibble2, Nibble3, LowNibble, HighNibble;
    MixLowNibbles(crc, b);
    MixNibble2(crc, b);
    MixNibble3(crc, b);
  }

  lemma AddByteParity(crc: bv16, b: byte)
    ensures Odd(AddByte(crc, b)) == (Odd(crc) != OddByte(b))
  {
    hide Nibble0, Nibble1, Nibble2, Nibble3, LowNibble, HighNibble, ShiftByte, Mix;
    MixNibbles(crc, b);
    EightBitsAreAByte(Mix(crc, b));
    ShiftsKeepParity(Mix(crc, b), 8);
  }

  // ---- frames ----

  predicate OddBytes(data: seq<byte>) {
    data != [] && OddByte(data[0]) != OddBytes(data[1..])
  }

  lemma {:induction false} AbsorbParity(crc: bv16, data: seq<byte>)
    ensures Odd(Absorb(crc, data)) == (Odd(crc) != OddBytes(data))
    decreases data
  {
    hide Odd, OddByte, AddByte;
    if data != [] {
      AddByteParity(crc, data[0]);
      AbsorbParity(AddByte(crc, data[0]), data[1..]);
    }
  }

  lemma Ends()
    ensures !Odd(INITIAL) && !Odd(0)
  {}

  /** Every frame that passes has an even number of one bits. */
  lemma PassingIsEven(frame: seq<byte>)
    requires |frame| >= 2 && Passes(frame)
    ensures !OddBytes(frame)
  {
    hide Odd, OddBytes, Passes, Absorb;
    PassesIffZeroResidue(frame);
    AbsorbParity(INITIAL, frame);
    Ends();
  }

  // ---- damage ----

  /** The number of one bits of a byte. */
  function Ones(b: byte): nat {
    (if b & 0x01 != 0 then 1 else 0) + (if b & 0x02 != 0 then 1 else 0)
    + (if b & 0x04 != 0 then 1 else 0) + (if b & 0x08 != 0 then 1 else 0)
    + (if b & 0x10 != 0 then 1 else 0) + (if b & 0x20 != 0 then 1 else 0)
    + (if b & 0x40 != 0 then 1 else 0) + (if b & 0x80 != 0 then 1 else 0)
  }

  /** How many bits differ between two frames. */
  ghost function Flips(f: seq<byte>, g: seq<byte>): nat
    requires |f| == |g|
  {
    if f == [] then 0 else Ones(f[0] ^ g[0]) + Flips(f[1..], g[1..])
  }

  lemma OnesParity(b: byte)
    ensures (Ones(b) % 2 == 1) == OddByte(b)
  {}

  lemma XorNibbles(a: byte, b: byte)
    ensures LowNibble(a ^ b) == (LowNibble(a) != LowNibble(b))
    ensures HighNibble(a ^ b) == (HighNibble(a) != HighNibble(b))
  {}

  lemma XorParity(a: byte, b: byte)
    ensures (Ones(a ^ b) % 2 == 1) == (OddByte(a) != OddByte(b))
  {
    hide LowNibble, HighNibble, Ones;
    OnesParity(a ^ b);
    XorNibbles(a, b);
  }

  lemma {:induction false} FlipsParity(f: seq<byte>, g: seq<byte>)
    requires |f| == |g|
    ensures (Flips(f, g) % 2 == 1) == (OddBytes(f) != OddBytes(g))
    decreases f
  {
    hide Ones, OddByte;
    if f != [] {
      XorParity(f[0], g[0]);
      FlipsParity(f[1..], g[1..]);
    }
  }

  /** Damage that flips an odd number of bits, anywhere in a frame of any length, is detected. */
  lemma OddDamageIsDetected(f: seq<byte>, g: seq<byte>)
    requires |f| == |g| >= 2 && Passes(f) && Flips(f, g) % 2 == 1
    ensures !Passes(g)
  {
    hide Passes, OddBytes, Flips;
    PassingIsEven(f);
    FlipsParity(f, g);
    if Passes(g) {
      PassingIsEven(g);
    }
  }
}
