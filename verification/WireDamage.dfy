/**
 Damage on the wire: what the CRC sees through the stuffing. Damage to the
 contents of blocks is always rejected; damage to a code byte moves the block
 boundaries and can be accepted.
 */
module WireDamage {
  import opened Crc16
  import opened CrcBurst
  import opened CrcParity
  import opened Cobs
  import opened Frame

  /** Both stuffed frames have the same code bytes in the same places. */
  ghost predicate SameBlocks(u: seq<byte>, v: seq<byte>)
    decreases |u|
  {
    && |u| == |v|
    && (u != [] ==>
          && u[0] == v[0] != 0
          && Reach(u[0]) <= |u|
          && (ReachCode(u[0]); SameBlocks(u[Reach(u[0])..], v[Reach(u[0])..])))
  }

  /** Decoding keeps the damage within two adjacent bytes. */
  lemma {:induction false} ContentsDamage(u: seq<byte>, v: seq<byte>, k: nat) returns (j: nat)
    requires SameBlocks(u, v) && DifferOnlyAt(u, v, k) && u != v
    ensures Decode(u).Bytes? && Decode(v).Bytes?
    ensures j < |Decode(u).data| && DifferOnlyAt(Decode(u).data, Decode(v).data, j)
    ensures Decode(u).data != Decode(v).data
    decreases |u|
  {
    hide Decode, Reach;
    ReachCode(u[0]);
    var r := Reach(u[0]);
    var a, b, s, t := u[1..r], v[1..r], u[r..], v[r..];
    FirstOf(u, v);
    BlocksDecode(s, t);
    var sep := Separator(u[0], s);
    assert Separator(v[0], t) == sep;
    var x, y := Decode(s).data, Decode(t).data;
    if s == t {
      j := if k == 0 then 0 else k - 1;
      BlockDiffers(u, v, k, r);
      Prefixed(a, b, sep + x, j);
      Reassociated(a, sep, x);
      Reassociated(b, sep, x);
    } else {
      TailDiffers(u, v, k, r);
      var i := ContentsDamage(s, t, if k < r then 0 else k - r);
      j := |a + sep| + i;
      Suffixed(a + sep, x, y, i);
    }
  }

  /** The decoding of two frames with the same code bytes, one block off. */
  lemma FirstOf(u: seq<byte>, v: seq<byte>)
    requires SameBlocks(u, v) && u != []
    ensures
      var r := Reach(u[0]);
      && 1 <= r <= |u| && SameBlocks(u[r..], v[r..])
      && Decode(u) == Prepend(u[1..r] + Separator(u[0], u[r..]), Decode(u[r..]))
      && Decode(v) == Prepend(v[1..r] + Separator(v[0], v[r..]), Decode(v[r..]))
  {
    hide Reach;
    ReachCode(u[0]);
  }

  lemma {:induction false} BlocksDecode(u: seq<byte>, v: seq<byte>)
    requires SameBlocks(u, v)
    ensures Decode(u).Bytes? && Decode(v).Bytes? && |Decode(u).data| == |Decode(v).data|
    decreases |u|
  {
    hide Reach, Decode;
    if u == [] {
      DecodeEmpty();
    } else {
      FirstOf(u, v);
      BlocksDecode(u[Reach(u[0])..], v[Reach(u[0])..]);
    }
  }

  /** When the rest is untouched the damage is inside the first block. */
  lemma BlockDiffers(u: seq<byte>, v: seq<byte>, k: nat, r: nat)
    requires 1 <= r <= |u| && DifferOnlyAt(u, v, k) && u != v && u[0] == v[0] && u[r..] == v[r..]
    ensures u[1..r] != v[1..r] && DifferOnlyAt(u[1..r], v[1..r], if k == 0 then 0 else k - 1)
    ensures (if k == 0 then 0 else k - 1) < |u[1..r]|
  {
    assert u == [u[0]] + u[1..r] + u[r..];
    assert v == [v[0]] + v[1..r] + v[r..];
  }

  /** When the rest is touched the first block is not. */
  lemma TailDiffers(u: seq<byte>, v: seq<byte>, k: nat, r: nat)
    requires 1 <= r <= |u| && DifferOnlyAt(u, v, k) && u[0] == v[0] && u[r..] != v[r..]
    requires SameBlocks(u[r..], v[r..])
    ensures r <= k && u[1..r] == v[1..r] && DifferOnlyAt(u[r..], v[r..], k - r)
  {
    hide Reach;
    assert u[r] == u[r..][0] && v[r] == v[r..][0];
  }

  lemma Prefixed(a: seq<byte>, b: seq<byte>, rest: seq<byte>, j: nat)
    requires DifferOnlyAt(a, b, j) && a != b && j < |a|
    ensures DifferOnlyAt(a + rest, b + rest, j) && a + rest != b + rest
  {
    assert (a + rest)[..|a|] == a && (b + rest)[..|b|] == b;
  }

  lemma Suffixed(head: seq<byte>, x: seq<byte>, y: seq<byte>, i: nat)
    requires DifferOnlyAt(x, y, i) && x != y && i < |x|
    ensures DifferOnlyAt(head + x, head + y, |head| + i) && head + x != head + y
  {
    assert (head + x)[|head|..] == x && (head + y)[|head|..] == y;
  }

  /**
   An accepted wire frame that is damaged within two adjacent bytes, its code
   bytes left alone, is rejected.
   */
  lemma DamagedContentsAreRejected(wire: seq<byte>, damaged: seq<byte>, k: nat)
    requires DecodeResponse(wire).Ok? && DifferOnlyAt(wire, damaged, k) && wire != damaged
    requires SameBlocks(wire[..|wire| - 1], damaged[..|wire| - 1])
    ensures DecodeResponse(damaged).Err?
  {
    hide Decode, OpenResponse, SameBlocks;
    if damaged[|wire| - 1] == 0 {
      var u, v := wire[..|wire| - 1], damaged[..|wire| - 1];
      assert wire == u + [0] && damaged == v + [0];
      var j := ContentsDamage(u, v, k);
      DamagedResponseIsRejected(Decode(u).data, Decode(v).data, j);
    }
  }

  // ---- bursts ----

  /** What a burst in the contents of blocks becomes when they are decoded. */
  ghost predicate SmallDamage(x: seq<byte>, y: seq<byte>, w: nat) {
    && x != y
    && (|| (exists j: nat :: j < |x| && DifferOnlyAt(x, y, j))
        || (exists j: nat :: DifferByBurst(x, y, j, w)))
  }

  lemma {:induction false} ContentsBurst(u: seq<byte>, v: seq<byte>, k: nat, w: nat)
    requires SameBlocks(u, v) && DifferByBurst(u, v, k, w) && u != v
    ensures Decode(u).Bytes? && Decode(v).Bytes? && SmallDamage(Decode(u).data, Decode(v).data, w)
    decreases |u|
  {
    hide Decode, Reach, FitsBurst, XorByte, SmallDamage;
    var r := Reach(u[0]);
    FirstOf(u, v);
    var a, b, s, t := u[1..r], v[1..r], u[r..], v[r..];
    BlocksDecode(u, v);
    BlocksDecode(s, t);
    var sep, x, y := Separator(u[0], s), Decode(s).data, Decode(t).data;
    Reassociated(a, sep, x);
    Reassociated(b, sep, y);
    if s == t {
      BurstInBlock(u, v, k, w, r, sep + x);
    } else if a == b {
      if k < r {
        TailStart(u, v, k, r);
        var i := ContentsDamage(s, t, 0);
        Suffixed(a + sep, x, y, i);
        OnlyAt(a + sep + x, a + sep + y, |a + sep| + i, w);
      } else {
        TailBurst(u, v, k, w, r);
        ContentsBurst(s, t, k - r, w);
        SmallSuffixed(a + sep, x, y, w);
      }
    } else {
      BurstAcross(u, v, k, w, r);
    }
  }

  lemma OnlyAt(x: seq<byte>, y: seq<byte>, j: nat, w: nat)
    requires x != y && j < |x| && DifferOnlyAt(x, y, j)
    ensures SmallDamage(x, y, w)
  {
    hide DifferByBurst;
  }

  lemma ByBurst(x: seq<byte>, y: seq<byte>, j: nat, w: nat)
    requires x != y && DifferByBurst(x, y, j, w)
    ensures SmallDamage(x, y, w)
  {
    hide DifferByBurst, DifferOnlyAt;
  }

  lemma SmallSuffixed(head: seq<byte>, x: seq<byte>, y: seq<byte>, w: nat)
    requires SmallDamage(x, y, w)
    ensures SmallDamage(head + x, head + y, w)
  {
    hide DifferByBurst, DifferOnlyAt;
    if j: nat :| j < |x| && DifferOnlyAt(x, y, j) {
      Suffixed(head, x, y, j);
      OnlyAt(head + x, head + y, |head| + j, w);
    } else {
      var j: nat :| DifferByBurst(x, y, j, w);
      BurstSuffixed(head, x, y, j, w);
      ByBurst(head + x, head + y, |head| + j, w);
    }
  }

  lemma BurstSuffixed(head: seq<byte>, x: seq<byte>, y: seq<byte>, j: nat, w: nat)
    requires DifferByBurst(x, y, j, w) && x != y
    ensures DifferByBurst(head + x, head + y, |head| + j, w) && head + x != head + y
  {
    hide FitsBurst, XorByte;
    assert (head + x)[|head|..] == x && (head + y)[|head|..] == y;
  }

  lemma BurstPrefixed(a: seq<byte>, b: seq<byte>, rest: seq<byte>, j: nat, w: nat)
    requires DifferByBurst(a, b, j, w) && a != b
    ensures DifferByBurst(a + rest, b + rest, j, w) && a + rest != b + rest
  {
    hide FitsBurst, XorByte;
    assert (a + rest)[..|a|] == a && (b + rest)[..|b|] == b;
  }

  /** The damage lies in the first block. */
  lemma BurstInBlock(u: seq<byte>, v: seq<byte>, k: nat, w: nat, r: nat, rest: seq<byte>)
    requires DifferByBurst(u, v, k, w) && u != v && 1 <= r <= |u| && u[0] == v[0] && u[r..] == v[r..]
    ensures SmallDamage(u[1..r] + rest, v[1..r] + rest, w)
  {
    hide FitsBurst, XorByte, SmallDamage;
    var a, b := u[1..r], v[1..r];
    if 1 <= k && k + 3 <= r {
      InnerBurst(u, v, k, w, r);
      BurstPrefixed(a, b, rest, k - 1, w);
      ByBurst(a + rest, b + rest, k - 1, w);
    } else {
      var i := if k == 0 then 1 else k;
      AtMostTwo(u, v, k, w, r);
      BlockDiffers(u, v, i, r);
      Prefixed(a, b, rest, i - 1);
      OnlyAt(a + rest, b + rest, i - 1, w);
    }
  }

  lemma InnerBurst(u: seq<byte>, v: seq<byte>, k: nat, w: nat, r: nat)
    requires DifferByBurst(u, v, k, w) && u != v && 1 <= k && k + 3 <= r <= |u|
    ensures DifferByBurst(u[1..r], v[1..r], k - 1, w) && u[1..r] != v[1..r]
  {
    hide FitsBurst, XorByte;
    var a, b := u[1..r], v[1..r];
    assert a[k - 1] == u[k] && a[k] == u[k + 1] && a[k + 1] == u[k + 2];
    assert b[k - 1] == v[k] && b[k] == v[k + 1] && b[k + 1] == v[k + 2];
    var i := DiffersAt(u, v);
    assert a[i - 1] == u[i] && b[i - 1] == v[i];
    forall n | 0 <= n < |a| && !(k - 1 <= n < k + 2) ensures a[n] == b[n] {
      assert a[n] == u[n + 1] && b[n] == v[n + 1];
    }
  }

  lemma DiffersAt(u: seq<byte>, v: seq<byte>) returns (i: nat)
    requires |u| == |v| && u != v
    ensures i < |u| && u[i] != v[i]
  {
    i :| 0 <= i < |u| && u[i] != v[i];
  }

  lemma AtMostTwo(u: seq<byte>, v: seq<byte>, k: nat, w: nat, r: nat)
    requires DifferByBurst(u, v, k, w) && 1 <= r <= |u| && u[0] == v[0] && u[r..] == v[r..]
    requires k == 0 || r < k + 3
    ensures DifferOnlyAt(u, v, if k == 0 then 1 else k)
  {
    hide FitsBurst, XorByte;
    forall i | r <= i < |u| ensures u[i] == v[i] {
      assert u[i] == u[r..][i - r] && v[i] == v[r..][i - r];
    }
  }

  /** The damage lies at the start of the rest, whose code byte is untouched. */
  lemma TailStart(u: seq<byte>, v: seq<byte>, k: nat, r: nat)
    requires 1 <= r <= |u| == |v| && k < r && (forall i :: k + 3 <= i < |u| ==> u[i] == v[i])
    requires SameBlocks(u[r..], v[r..]) && u[r..] != v[r..]
    ensures DifferOnlyAt(u[r..], v[r..], 0)
  {
    hide Reach;
    assert u[r..][0] == v[r..][0];
  }

  lemma TailBurst(u: seq<byte>, v: seq<byte>, k: nat, w: nat, r: nat)
    requires DifferByBurst(u, v, k, w) && 1 <= r <= k
    ensures DifferByBurst(u[r..], v[r..], k - r, w)
  {
    hide FitsBurst, XorByte;
    assert u[r..][k - r] == u[k] && u[r..][k - r + 2] == u[k + 2];
    assert v[r..][k - r] == v[k] && v[r..][k - r + 2] == v[k + 2];
  }

  /** The damage lies in the last byte of a block and the first of the next. */
  lemma BurstAcross(u: seq<byte>, v: seq<byte>, k: nat, w: nat, r: nat)
    requires SameBlocks(u, v) && DifferByBurst(u, v, k, w) && r == Reach(u[0]) && 1 <= r <= |u|
    requires u[1..r] != v[1..r] && u[r..] != v[r..]
    ensures Decode(u).Bytes? && Decode(v).Bytes? && SmallDamage(Decode(u).data, Decode(v).data, w)
  {
    hide Decode, Reach, FitsBurst, XorByte, SmallDamage;
    FirstOf(u, v);
    var a, b, s, t := u[1..r], v[1..r], u[r..], v[r..];
    Straddles(u, v, k, w, r);
    NextByte(s, t);
    BlocksDecode(u, v);
    BlocksDecode(s, t);
    var sep, x, y := Separator(u[0], s), Decode(s).data, Decode(t).data;
    Spread(a, b, sep, x, y, w);
  }

  lemma Straddles(u: seq<byte>, v: seq<byte>, k: nat, w: nat, r: nat)
    requires DifferByBurst(u, v, k, w) && 1 <= r <= |u| && SameBlocks(u[r..], v[r..])
    requires u[1..r] != v[1..r] && u[r..] != v[r..] && u[0] == v[0]
    ensures
      var a, b, s, t := u[1..r], v[1..r], u[r..], v[r..];
      && |a| == |b| >= 1 && a[..|a| - 1] == b[..|a| - 1] && |s| == |t| >= 2 && s[0] == t[0] && s[2..] == t[2..]
      && FitsBurst(XorByte(a[|a| - 1], b[|a| - 1]), XorByte(s[1], t[1]), w)
  {
    hide FitsBurst, XorByte, Reach;
    var a, b, s, t := u[1..r], v[1..r], u[r..], v[r..];
    assert s[0] == t[0];
    var i := DiffersAt(a, b);
    var j := DiffersAt(s, t);
    assert a[i] == u[i + 1] && b[i] == v[i + 1] && s[j] == u[r + j] && t[j] == v[r + j];
    assert k == r - 1;
    assert a[|a| - 1] == u[k] && b[|a| - 1] == v[k] && s[1] == u[k + 2] && t[1] == v[k + 2];
    forall n | 0 <= n < |a| - 1 ensures a[n] == b[n] {
      assert a[n] == u[n + 1] && b[n] == v[n + 1];
    }
    forall n | 2 <= n < |s| ensures s[n] == t[n] {
      assert s[n] == u[r + n] && t[n] == v[r + n];
    }
  }

  /** One damaged byte after an untouched code byte is the first byte decoded. */
  lemma NextByte(s: seq<byte>, t: seq<byte>)
    requires SameBlocks(s, t) && |s| == |t| >= 2 && s[0] == t[0] && s[2..] == t[2..] && s != t
    ensures Decode(s).Bytes? && Decode(t).Bytes?
    ensures
      var x, y := Decode(s).data, Decode(t).data;
      |x| == |y| >= 1 && x[0] == s[1] && y[0] == t[1] && x[1..] == y[1..]
  {
    hide Decode, Reach, SameBlocks;
    FirstOf(s, t);
    BlocksDecode(s, t);
    NotACodeByte(s, t);
    var q := Reach(s[0]);
    SameTail(s, t, q);
    BlocksDecode(s[q..], t[q..]);
    var rest := Separator(s[0], s[q..]) + Decode(s[q..]).data;
    Reassociated(s[1..q], Separator(s[0], s[q..]), Decode(s[q..]).data);
    Reassociated(t[1..q], Separator(t[0], t[q..]), Decode(t[q..]).data);
    FirstByteOf(s[1..q], t[1..q], rest);
  }

  /** The byte after the code byte differs, so it is no code byte. */
  lemma NotACodeByte(s: seq<byte>, t: seq<byte>)
    requires SameBlocks(s, t) && |s| == |t| >= 2 && s[0] == t[0] && s[2..] == t[2..] && s != t
    ensures 2 <= Reach(s[0]) <= |s|
  {
    hide Reach, Decode;
    FirstOf(s, t);
    assert s == [s[0], s[1]] + s[2..] && t == [t[0], t[1]] + t[2..];
    assert s[1..][0] == s[1] && t[1..][0] == t[1];
  }

  lemma SameTail(s: seq<byte>, t: seq<byte>, q: nat)
    requires 2 <= q <= |s| == |t| && s[2..] == t[2..]
    ensures s[q..] == t[q..] && s[1..q][1..] == t[1..q][1..]
  {
    assert s[q..] == s[2..][q - 2..] && t[q..] == t[2..][q - 2..];
    assert s[1..q][1..] == s[2..][..q - 2] && t[1..q][1..] == t[2..][..q - 2];
  }

  lemma FirstByteOf(a: seq<byte>, b: seq<byte>, rest: seq<byte>)
    requires |a| == |b| >= 1 && a[1..] == b[1..]
    ensures (a + rest)[0] == a[0] && (b + rest)[0] == b[0] && (a + rest)[1..] == (b + rest)[1..]
  {
    assert (a + rest)[1..] == a[1..] + rest && (b + rest)[1..] == b[1..] + rest;
  }

  /** Both damaged bytes with what lies between them after decoding: a zero, or nothing after a full block. */
  lemma Spread(a: seq<byte>, b: seq<byte>, sep: seq<byte>, x: seq<byte>, y: seq<byte>, w: nat)
    requires |a| == |b| >= 1 && a[..|a| - 1] == b[..|a| - 1] && a != b
    requires |x| == |y| >= 1 && x[1..] == y[1..] && (sep == [] || sep == [0])
    requires FitsBurst(XorByte(a[|a| - 1], b[|a| - 1]), XorByte(x[0], y[0]), w)
    ensures SmallDamage(a + sep + x, b + sep + y, w)
  {
    hide FitsBurst, XorByte, SmallDamage;
    var p := |a| - 1;
    var f, g := a + sep + x, b + sep + y;
    assert f[..|a|] == a && g[..|a|] == b;
    assert forall i :: 0 <= i < p ==> a[i] == a[..p][i] && b[i] == b[..p][i];
    assert forall i :: 1 <= i < |x| ==> x[i] == x[1..][i - 1] && y[i] == y[1..][i - 1];
    if sep == [] {
      OnlyAt(f, g, p, w);
    } else {
      ByBurst(f, g, p, w);
    }
  }

  /**
   An accepted wire frame that is damaged by a burst of at most 16 bits at any
   bit alignment, its code bytes left alone, is rejected.
   */
  lemma BurstInContentsIsRejected(wire: seq<byte>, damaged: seq<byte>, k: nat, w: nat)
    requires DecodeResponse(wire).Ok? && DifferByBurst(wire, damaged, k, w) && wire != damaged
    requires SameBlocks(wire[..|wire| - 1], damaged[..|wire| - 1])
    ensures DecodeResponse(damaged).Err?
  {
    hide Decode, OpenResponse, SameBlocks, FitsBurst, XorByte;
    var n := |wire| - 1;
    if damaged[n] == 0 {
      var u, v := wire[..n], damaged[..n];
      assert wire == u + [0] && damaged == v + [0];
      if k + 3 <= n {
        assert u[k] == wire[k] && u[k + 2] == wire[k + 2] && v[k] == damaged[k] && v[k + 2] == damaged[k + 2];
        ContentsBurst(u, v, k, w);
        SmallDamageIsRejected(Decode(u).data, Decode(v).data, w);
      } else {
        assert DifferOnlyAt(wire, damaged, k);
        DamagedContentsAreRejected(wire, damaged, k);
      }
    }
  }

  lemma SmallDamageIsRejected(d: seq<byte>, damaged: seq<byte>, w: nat)
    requires OpenResponse(d).Ok? && SmallDamage(d, damaged, w)
    ensures OpenResponse(damaged).Err?
  {
    hide DifferByBurst, DifferOnlyAt;
    if j: nat :| j < |d| && DifferOnlyAt(d, damaged, j) {
      DamagedResponseIsRejected(d, damaged, j);
    } else {
      var j: nat :| DifferByBurst(d, damaged, j, w);
      BurstyResponseIsRejected(d, damaged, j, w);
    }
  }

  lemma BurstyResponseIsRejected(d: seq<byte>, damaged: seq<byte>, j: nat, w: nat)
    requires OpenResponse(d).Ok? && DifferByBurst(d, damaged, j, w) && d != damaged
    ensures OpenResponse(damaged).Err?
  {
    hide Checksum, Passes, Word, Reach, FitsBurst, XorByte;
    BurstIsDetected(d, damaged, j, w);
  }

  // ---- odd damage ----

  lemma {:induction false} FlipsAppend(a: seq<byte>, b: seq<byte>, c: seq<byte>, d: seq<byte>)
    requires |a| == |b| && |c| == |d|
    ensures Flips(a + c, b + d) == Flips(a, b) + Flips(c, d)
    decreases a
  {
    hide Ones;
    if a == [] {
      assert a + c == c && b + d == d;
    } else {
      assert (a + c)[1..] == a[1..] + c && (b + d)[1..] == b[1..] + d;
      FlipsAppend(a[1..], b[1..], c, d);
    }
  }

  lemma {:induction false} FlipsNone(a: seq<byte>)
    ensures Flips(a, a) == 0
  {
    if a != [] {
      SameByte(a[0]);
      FlipsNone(a[1..]);
    }
  }

  lemma SameByte(b: byte)
    ensures Ones(b ^ b) == 0
  {}

  /** With the code bytes untouched, as many bits differ after decoding as before. */
  lemma {:induction false} ContentsFlips(u: seq<byte>, v: seq<byte>)
    requires SameBlocks(u, v)
    ensures Decode(u).Bytes? && Decode(v).Bytes? && |Decode(u).data| == |Decode(v).data|
    ensures Flips(Decode(u).data, Decode(v).data) == Flips(u, v)
    decreases |u|
  {
    hide Decode, Reach, Flips;
    BlocksDecode(u, v);
    if u == [] {
      DecodeEmpty();
    } else {
      FirstOf(u, v);
      var r := Reach(u[0]);
      var a, b, s, t := u[1..r], v[1..r], u[r..], v[r..];
      ContentsFlips(s, t);
      WireFlips(u, v, r);
      DataFlips(a, b, Separator(u[0], s), Decode(s).data, Decode(t).data);
    }
  }

  lemma WireFlips(u: seq<byte>, v: seq<byte>, r: nat)
    requires 1 <= r <= |u| == |v| && u[0] == v[0]
    ensures Flips(u, v) == Flips(u[1..r], v[1..r]) + Flips(u[r..], v[r..])
  {
    hide Flips;
    FlipsNone([u[0]]);
    FlipsAppend([u[0]], [v[0]], u[1..r], v[1..r]);
    FlipsAppend([u[0]] + u[1..r], [v[0]] + v[1..r], u[r..], v[r..]);
    assert u == [u[0]] + u[1..r] + u[r..];
    assert v == [v[0]] + v[1..r] + v[r..];
  }

  lemma DataFlips(a: seq<byte>, b: seq<byte>, sep: seq<byte>, x: seq<byte>, y: seq<byte>)
    requires |a| == |b| && |x| == |y|
    ensures Flips(a + sep + x, b + sep + y) == Flips(a, b) + Flips(x, y)
  {
    hide Flips;
    FlipsNone(sep);
    FlipsAppend(a, b, sep, sep);
    FlipsAppend(a + sep, b + sep, x, y);
  }

  /** An accepted wire frame with an odd number of flipped bits, its code bytes left alone, is rejected. */
  lemma OddContentsAreRejected(wire: seq<byte>, damaged: seq<byte>)
    requires DecodeResponse(wire).Ok? && |wire| == |damaged| && Flips(wire, damaged) % 2 == 1
    requires SameBlocks(wire[..|wire| - 1], damaged[..|wire| - 1])
    ensures DecodeResponse(damaged).Err?
  {
    hide Decode, DecodeResponse, OpenResponse, SameBlocks, Flips;
    NoDelimiterIsRejected(wire);
    NoDelimiterIsRejected(damaged);
    var n := |wire| - 1;
    if damaged[n] == 0 {
      var u, v := wire[..n], damaged[..n];
      assert wire == u + [0];
      assert damaged == v + [0];
      FlipsAppend(u, v, [0], [0]);
      FlipsNone([0]);
      ContentsFlips(u, v);
      Delimited(u);
      Delimited(v);
      OddResponseIsRejected(Decode(u).data, Decode(v).data);
    }
  }

  lemma NoDelimiterIsRejected(wire: seq<byte>)
    ensures wire == [] || wire[|wire| - 1] != 0 ==> DecodeResponse(wire).Err?
  {
    hide Decode, OpenResponse;
  }

  lemma Delimited(u: seq<byte>)
    requires Decode(u).Bytes?
    ensures DecodeResponse(u + [0]) == OpenResponse(Decode(u).data)
  {
    hide Decode, OpenResponse;
    assert (u + [0])[..|u|] == u;
  }

  lemma OddResponseIsRejected(d: seq<byte>, damaged: seq<byte>)
    requires OpenResponse(d).Ok? && |d| == |damaged| && Flips(d, damaged) % 2 == 1
    ensures OpenResponse(damaged).Err?
  {
    hide Checksum, Passes, Word, Reach, Flips;
    OddDamageIsDetected(d, damaged);
  }

  // ---- a code byte ----

  /** The stuffed bytes of a response, and the same with its second code byte changed from 3 to 8. */
  const STUFFED: seq<byte> := [3, 1, 2, 3, 253, 2, 3, 11, 3, 4, 4, 1, 2, 1]
  const ALTERED: seq<byte> := [3, 1, 2, 8, 253, 2, 3, 11, 3, 4, 4, 1, 2, 1]

  /** What the two decode to. */
  const SENT: seq<byte> := [1, 2, 0, 253, 2, 0, 11, 3, 0, 4, 1, 2, 0]
  const SEEN: seq<byte> := [1, 2, 0, 253, 2, 3, 11, 3, 4, 4, 0, 0, 1]

  lemma SentSteps()
    ensures AddByte(0xFFFF, 1) == 0xF1D1
    ensures AddByte(0xF1D1, 2) == 0x0E7C
    ensures AddByte(0x0E7C, 0) == 0x9DCE
    ensures AddByte(0x9DCE, 253) == 0xA2A6
    ensures AddByte(0xA2A6, 2) == 0x13EA
    ensures AddByte(0x13EA, 0) == 0xC852
    ensures AddByte(0xC852, 11) == 0xBB2F
    ensures AddByte(0xBB2F, 3) == 0x09D3
    ensures AddByte(0x09D3, 0) == 0x4229
    ensures AddByte(0x4229, 4) == 0x0102
    ensures AddByte(0x0102, 1) == 0x0200
    ensures AddByte(0x0200, 2) == 0x0000
    ensures AddByte(0x0000, 0) == 0x0000
  {}

  lemma SentFirstHalf(data: seq<byte>)
    requires |data| == 13
    requires data[0] == 1 && data[1] == 2 && data[2] == 0 && data[3] == 253 && data[4] == 2 && data[5] == 0 && data[6] == 11
    ensures Absorb(INITIAL, data) == Absorb(0xBB2F, data[7..])
  {
    hide AddByte, Absorb;
    SentSteps();
    AbsorbAt(0xFFFF, data, 0, 0xF1D1);
    AbsorbAt(0xF1D1, data, 1, 0x0E7C);
    AbsorbAt(0x0E7C, data, 2, 0x9DCE);
    AbsorbAt(0x9DCE, data, 3, 0xA2A6);
    AbsorbAt(0xA2A6, data, 4, 0x13EA);
    AbsorbAt(0x13EA, data, 5, 0xC852);
    AbsorbAt(0xC852, data, 6, 0xBB2F);
    assert data[0..] == data;
  }

  lemma SentSecondHalf(data: seq<byte>)
    requires |data| == 13
    requires data[7] == 3 && data[8] == 0 && data[9] == 4 && data[10] == 1 && data[11] == 2 && data[12] == 0
    ensures Absorb(0xBB2F, data[7..]) == 0
  {
    hide AddByte, Absorb;
    SentSteps();
    AbsorbAt(0xBB2F, data, 7, 0x09D3);
    AbsorbAt(0x09D3, data, 8, 0x4229);
    AbsorbAt(0x4229, data, 9, 0x0102);
    AbsorbAt(0x0102, data, 10, 0x0200);
    AbsorbAt(0x0200, data, 11, 0x0000);
    AbsorbAt(0x0000, data, 12, 0x0000);
    assert data[13..] == [];
    AbsorbNothing(0);
  }

  lemma SentResidue()
    ensures Checksum(SENT) == 0
  {
    hide Absorb;
    SentFirstHalf(SENT);
    SentSecondHalf(SENT);
  }

  lemma SeenSteps()
    ensures AddByte(0xFFFF, 1) == 0xF1D1
    ensures AddByte(0xF1D1, 2) == 0x0E7C
    ensures AddByte(0x0E7C, 0) == 0x9DCE
    ensures AddByte(0x9DCE, 253) == 0xA2A6
    ensures AddByte(0xA2A6, 2) == 0x13EA
    ensures AddByte(0x13EA, 3) == 0xF831
    ensures AddByte(0xF831, 11) == 0xEE7C
    ensures AddByte(0xEE7C, 3) == 0x5083
    ensures AddByte(0x5083, 4) == 0x9971
    ensures AddByte(0x9971, 4) == 0x2314
    ensures AddByte(0x2314, 0) == 0x0001
    ensures AddByte(0x0001, 0) == 0x0100
    ensures AddByte(0x0100, 1) == 0x0000
  {}

  lemma SeenFirstHalf(data: seq<byte>)
    requires |data| == 13
    requires data[0] == 1 && data[1] == 2 && data[2] == 0 && data[3] == 253 && data[4] == 2 && data[5] == 3 && data[6] == 11
    ensures Absorb(INITIAL, data) == Absorb(0xEE7C, data[7..])
  {
    hide AddByte, Absorb;
    SeenSteps();
    AbsorbAt(0xFFFF, data, 0, 0xF1D1);
    AbsorbAt(0xF1D1, data, 1, 0x0E7C);
    AbsorbAt(0x0E7C, data, 2, 0x9DCE);
    AbsorbAt(0x9DCE, data, 3, 0xA2A6);
    AbsorbAt(0xA2A6, data, 4, 0x13EA);
    AbsorbAt(0x13EA, data, 5, 0xF831);
    AbsorbAt(0xF831, data, 6, 0xEE7C);
    assert data[0..] == data;
  }

  lemma SeenSecondHalf(data: seq<byte>)
    requires |data| == 13
    requires data[7] == 3 && data[8] == 4 && data[9] == 4 && data[10] == 0 && data[11] == 0 && data[12] == 1
    ensures Absorb(0xEE7C, data[7..]) == 0
  {
    hide AddByte, Absorb;
    SeenSteps();
    AbsorbAt(0xEE7C, data, 7, 0x5083);
    AbsorbAt(0x5083, data, 8, 0x9971);
    AbsorbAt(0x9971, data, 9, 0x2314);
    AbsorbAt(0x2314, data, 10, 0x0001);
    AbsorbAt(0x0001, data, 11, 0x0100);
    AbsorbAt(0x0100, data, 12, 0x0000);
    assert data[13..] == [];
    AbsorbNothing(0);
  }

  lemma SeenResidue()
    ensures Checksum(SEEN) == 0
  {
    hide Absorb;
    SeenFirstHalf(SEEN);
    SeenSecondHalf(SEEN);
  }

  /** One inner block of a frame whose rest is known to decode. */
  lemma BlockAt(wire: seq<byte>, data: seq<byte>, index: nat, end: nat)
    requires index < end < |wire| == |data| + 1 && wire[index] != 0 && wire[index] != 0xFF
    requires end == index + Reach(wire[index])
    requires data[index..end] == wire[index + 1..end] + [0]
    requires Decode(wire[end..]) == Bytes(data[end..])
    ensures Decode(wire[index..]) == Bytes(data[index..])
  {
    hide Decode, Reach;
    DecodeAt(wire, index, end);
    assert data[index..] == data[index..end] + data[end..];
  }

  lemma LastBlock(wire: seq<byte>, data: seq<byte>, index: nat)
    requires index < |wire| == |data| + 1 && wire[index] != 0
    requires |wire| == index + Reach(wire[index]) && data[index..] == wire[index + 1..]
    ensures Decode(wire[index..]) == Bytes(data[index..])
  {
    hide Decode, Reach;
    DecodeAt(wire, index, |wire|);
    assert wire[|wire|..] == [];
    DecodeEmpty();
  }

  lemma StuffedTail()
    ensures Decode(STUFFED[6..]) == Bytes(SENT[6..])
  {
    hide Decode;
    assert SENT[13..] == [] && STUFFED[14..] == [];
    LastBlock(STUFFED, SENT, 13);
    assert SENT[9..13] == [4, 1, 2, 0] && STUFFED[10..13] == [4, 1, 2];
    BlockAt(STUFFED, SENT, 9, 13);
    assert SENT[6..9] == [11, 3, 0] && STUFFED[7..9] == [11, 3];
    BlockAt(STUFFED, SENT, 6, 9);
  }

  lemma StuffedDecodes()
    ensures Decode(STUFFED) == Bytes(SENT)
  {
    hide Decode;
    StuffedTail();
    assert SENT[3..6] == [253, 2, 0] && STUFFED[4..6] == [253, 2];
    BlockAt(STUFFED, SENT, 3, 6);
    assert SENT[0..3] == [1, 2, 0] && STUFFED[1..3] == [1, 2];
    BlockAt(STUFFED, SENT, 0, 3);
    assert STUFFED[0..] == STUFFED && SENT[0..] == SENT;
  }

  lemma AlteredTail()
    ensures Decode(ALTERED[11..]) == Bytes(SEEN[11..])
  {
    hide Decode;
    assert SEEN[12..] == [1] && ALTERED[13..] == [1];
    LastBlock(ALTERED, SEEN, 12);
    assert SEEN[11..12] == [0] && ALTERED[12..12] == [];
    BlockAt(ALTERED, SEEN, 11, 12);
  }

  lemma AlteredDecodes()
    ensures Decode(ALTERED) == Bytes(SEEN)
  {
    hide Decode;
    AlteredTail();
    assert SEEN[3..11] == [253, 2, 3, 11, 3, 4, 4, 0] && ALTERED[4..11] == [253, 2, 3, 11, 3, 4, 4];
    BlockAt(ALTERED, SEEN, 3, 11);
    assert SEEN[0..3] == [1, 2, 0] && ALTERED[1..3] == [1, 2];
    BlockAt(ALTERED, SEEN, 0, 3);
    assert ALTERED[0..] == ALTERED && SEEN[0..] == SEEN;
  }

  lemma OpensAs(d: seq<byte>, m: Message)
    requires |d| == 13 && d[0] == PROTOCOL_VERSION && d[4] == MESSAGE_RESPONSE && Reach(d[7]) == 3
    requires Checksum(d) == 0 && m == Message(d[1], Field(d[2], d[3]), Field(d[5], d[6]), d[8..11])
    ensures OpenResponse(d) == Ok(m)
  {
    hide Checksum, Passes, Reach, Field;
    PassesIffZeroResidue(d);
  }

  /**
   Changing one code byte of an accepted frame can give another accepted frame
   with a different command and payload: the CRC does not protect the stuffing.
   */
  lemma CodeByteDamageCanPass()
    ensures DifferOnlyAt(STUFFED + [0], ALTERED + [0], 3)
    ensures STUFFED[3] == 3 && ALTERED[3] == 8
    ensures DecodeResponse(STUFFED + [0]) == Ok(Message(2, Field(0, 253), Field(0, 11), [0, 4, 1]))
    ensures DecodeResponse(ALTERED + [0]) == Ok(Message(2, Field(0, 253), Field(3, 11), [4, 4, 0]))
    ensures Field(0, 11) != Field(3, 11)
  {
    hide Decode, OpenResponse, Checksum;
    StuffedDecodes();
    AlteredDecodes();
    SentResidue();
    SeenResidue();
    OpensAs(SENT, Message(2, Field(0, 253), Field(0, 11), [0, 4, 1]));
    OpensAs(SEEN, Message(2, Field(0, 253), Field(3, 11), [4, 4, 0]));
    assert (STUFFED + [0])[..14] == STUFFED && (ALTERED + [0])[..14] == ALTERED;
  }
}
