/**
 Fixed-width integers of the firmware, written out over unbounded ints.
 A `uint32_t` is an int in [0, 2^32); a cast to `int32_t` is `Signed32`.
 */
module Words {
  const TWO_31: int := 0x8000_0000
  const TWO_32: int := 0x1_0000_0000

  type uint32 = x: int | 0 <= x < 0x1_0000_0000
  type int32 = x: int | -0x8000_0000 <= x < 0x8000_0000

  function Magnitude(x: int): nat {
    if x < 0 then -x else x
  }

  /** Reduction modulo 2^32, the result of every `uint32_t` operation. */
  function Wrap(x: int): (r: uint32) {
    x % TWO_32
  }

  /** The two's-complement reading of a 32-bit word. */
  function Signed32(w: uint32): (r: int32) {
    if w < TWO_31 then w else w - TWO_32
  }

  /** Wrapping a number that is a multiple of 2^32 away changes nothing. */
  lemma WrapUnique(x: int, r: int, k: int)
    requires x == r + k * TWO_32
    requires 0 <= r < TWO_32
    ensures Wrap(x) == r
  {
    var q := x / TWO_32;
    assert x == q * TWO_32 + x % TWO_32;
    assert (q - k) * TWO_32 == r - x % TWO_32;
  }

  /**
   The idiom every wrap-safe comparison of the firmware rests on: the 32-bit
   difference of two wrapped counters is the wrapped true difference.
   */
  lemma WrapDifference(a: int, b: int)
    ensures Wrap(Wrap(a) - Wrap(b)) == Wrap(a - b)
  {
    var p, q, s := a / TWO_32, b / TWO_32, (a - b) / TWO_32;
    assert a == p * TWO_32 + Wrap(a);
    assert b == q * TWO_32 + Wrap(b);
    assert a - b == s * TWO_32 + Wrap(a - b);
    WrapUnique(Wrap(a) - Wrap(b), Wrap(a - b), s - p + q);
  }

  /** Adding wrapped words and wrapping again is wrapping the true sum. */
  lemma WrapSum(a: int, b: int)
    ensures Wrap(Wrap(a) + b) == Wrap(a + b)
  {
    var p, s := a / TWO_32, (a + b) / TWO_32;
    assert a == p * TWO_32 + Wrap(a);
    assert a + b == s * TWO_32 + Wrap(a + b);
    WrapUnique(Wrap(a) + b, Wrap(a + b), s - p);
  }

  /**
   The signed 32-bit difference of two wrapped counters is their true
   difference exactly when that difference fits in 31 bits and a sign.
   */
  lemma SignedDifference(a: int, b: int)
    ensures Signed32(Wrap(Wrap(a) - Wrap(b))) == a - b <==> -TWO_31 <= a - b < TWO_31
  {
    WrapDifference(a, b);
    if 0 <= a - b < TWO_31 {
      WrapUnique(a - b, a - b, 0);
    } else if -TWO_31 <= a - b < 0 {
      WrapUnique(a - b, a - b + TWO_32, -1);
    }
  }

  /** Two counters closer than 2^32 have equal words only when they are equal. */
  lemma WrapInjective(a: int, b: int)
    requires -TWO_32 < a - b < TWO_32
    ensures Wrap(a) == Wrap(b) <==> a == b
  {
    WrapDifference(a, b);
    if Wrap(a) == Wrap(b) {
      WrapUnique(0, 0, 0);
      assert a - b == ((a - b) / TWO_32) * TWO_32;
    }
  }
}
