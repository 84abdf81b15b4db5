/**
 Consistent-overhead byte stuffing as tools/mks57d_rs485.py does it: a frame
 becomes blocks of a code byte and up to 254 non-zero bytes.
 */
module Cobs {
  import opened Crc16

  datatype Decoded = Bytes(data: seq<byte>) | ZeroInside | Truncated

  // ---- code bytes ----

  function Code(n: int): byte
    requires 1 <= n <= 255
  {
    n as bv8
  }

  function Reach(code: byte): nat {
    code as int
  }

  lemma ReachCode(b: byte)
    requires b != 0
    ensures 1 <= Reach(b) <= 255 && Code(Reach(b)) == b
    ensures b == 0xFF <==> Reach(b) == 255
  {
  }

  lemma ReachSuccessor(b: byte)
    requires b != 0xFF
    ensures Reach(b + 1) == Reach(b) + 1 && b + 1 != 0
  {
  }

  lemma {:induction false} CodeReach(n: int)
    requires 1 <= n <= 255
    ensures Reach(Code(n)) == n && Code(n) != 0
  {
    if n == 1 {
      assert Code(1) == 1 && Reach(1) == 1;
    } else {
      CodeReach(n - 1);
      CodeSuccessor(Code(n - 1));
    }
  }

  lemma CodeSuccessor(b: byte)
    requires b != 0 && Reach(b) < 255
    ensures Reach(Code(Reach(b) + 1)) == Reach(b) + 1 && Code(Reach(b) + 1) != 0
  {
    hide Reach, Code;
    ReachCode(b);
    ReachSuccessor(b);
    ReachCode(b + 1);
  }

  // ---- encoder ----

  /** The encoding of `run + data` when `run` is the unfinished block. */
  function EncodeFrom(run: seq<byte>, data: seq<byte>): seq<byte>
    requires |run| <= 253
    decreases data
  {
    if data == [] then [Code(|run| + 1)] + run
    else if data[0] == 0 then [Code(|run| + 1)] + run + EncodeFrom([], data[1..])
    else if |run| == 253 then [Code(255)] + (run + [data[0]]) + EncodeFrom([], data[1..])
    else EncodeFrom(run + [data[0]], data[1..])
  }

  function Encode(data: seq<byte>): seq<byte> {
    EncodeFrom([], data)
  }

  lemma Patched(output: seq<byte>, i: int, code: byte)
    requires 0 <= i < |output|
    ensures output[i := code] == output[..i] + ([code] + output[i + 1..])
  {
  }

  lemma Reassociated(a: seq<byte>, b: seq<byte>, c: seq<byte>)
    ensures a + (b + c) == (a + b) + c
  {
  }

  /**
   What is still owed: the finished blocks, then the encoding of the open block
   and the rest of the input. The open block starts at `index` with a code byte
   that is not known yet.
   */
  ghost predicate Pending(output: seq<byte>, index: int, rest: seq<byte>, total: seq<byte>) {
    && 0 <= index < |output| && |output| - index <= 254
    && total == output[..index] + EncodeFrom(output[index + 1..], rest)
  }

  lemma ZeroEndsBlock(output: seq<byte>, index: int, rest: seq<byte>, total: seq<byte>)
    requires Pending(output, index, rest, total) && rest != [] && rest[0] == 0
    ensures Pending(output[index := Code(|output| - index)] + [0], |output|, rest[1..], total)
  {
    hide Code;
    var code := Code(|output| - index);
    Patched(output, index, code);
    Reassociated(output[..index], [code] + output[index + 1..], EncodeFrom([], rest[1..]));
    Reopened(output[index := code], rest[1..]);
  }

  lemma ByteJoinsBlock(output: seq<byte>, index: int, rest: seq<byte>, total: seq<byte>)
    requires Pending(output, index, rest, total) && rest != [] && rest[0] != 0
    requires |output| - index < 254
    ensures Pending(output + [rest[0]], index, rest[1..], total)
  {
    hide Code;
    var longer := output + [rest[0]];
    assert longer[..index] == output[..index] && longer[index + 1..] == output[index + 1..] + [rest[0]];
  }

  lemma ByteFillsBlock(output: seq<byte>, index: int, rest: seq<byte>, total: seq<byte>)
    requires Pending(output, index, rest, total) && rest != [] && rest[0] != 0
    requires |output| - index == 254
    ensures Pending((output + [rest[0]])[index := Code(255)] + [0], |output| + 1, rest[1..], total)
  {
    hide Code;
    var longer := output + [rest[0]];
    assert longer[..index] == output[..index] && longer[index + 1..] == output[index + 1..] + [rest[0]];
    Patched(longer, index, Code(255));
    Reassociated(output[..index], [Code(255)] + longer[index + 1..], EncodeFrom([], rest[1..]));
    Reopened(longer[index := Code(255)], rest[1..]);
  }

  /** A fresh open block after finished ones. */
  lemma Reopened(done: seq<byte>, rest: seq<byte>)
    ensures Pending(done + [0], |done|, rest, done + EncodeFrom([], rest))
  {
    hide EncodeFrom;
    assert (done + [0])[..|done|] == done && (done + [0])[|done| + 1..] == [];
  }

  lemma InputEndsBlock(output: seq<byte>, index: int, total: seq<byte>)
    requires Pending(output, index, [], total)
    ensures total == output[index := Code(|output| - index)]
  {
    hide Code;
    Patched(output, index, Code(|output| - index));
  }

  /** `cobs_encode`: the code byte of each block is patched in when the block ends. */
  method CobsEncode(data: seq<byte>) returns (output: seq<byte>)
    ensures output == Encode(data)
  {
    hide Code, EncodeFrom, Pending;
    output := [0];
    var codeIndex, code := 0, 1;
    Reopened([], data);
    assert [] + [0] == output && [] + EncodeFrom([], data) == Encode(data) && data[0..] == data;
    for i := 0 to |data|
      invariant 0 <= codeIndex < |output| && code == |output| - codeIndex <= 254
      invariant Pending(output, codeIndex, data[i..], Encode(data))
    {
      ghost var rest := data[i..];
      assert rest[0] == data[i] && rest[1..] == data[i + 1..];
      if data[i] == 0 {
        ZeroEndsBlock(output, codeIndex, rest, Encode(data));
        output := output[codeIndex := Code(code)];
        codeIndex := |output|;
        output := output + [0];
        code := 1;
      } else {
        if code < 254 {
          ByteJoinsBlock(output, codeIndex, rest, Encode(data));
        } else {
          ByteFillsBlock(output, codeIndex, rest, Encode(data));
        }
        output := output + [data[i]];
        code := code + 1;
        if code == 0xFF {
          output := output[codeIndex := Code(code)];
          codeIndex := |output|;
          output := output + [0];
          code := 1;
        }
      }
    }
    assert data[|data|..] == [];
    InputEndsBlock(output, codeIndex, Encode(data));
    output := output[codeIndex := Code(code)];
  }

  // ---- decoder ----

  function Prepend(head: seq<byte>, rest: Decoded): Decoded {
    if rest.Bytes? then Bytes(head + rest.data) else rest
  }

  function Decode(wire: seq<byte>): Decoded {
    if wire == [] then Bytes([])
    else if wire[0] == 0 then ZeroInside
    else if Reach(wire[0]) > |wire| then Truncated
    else
      ReachCode(wire[0]);
      var block, rest := wire[1..Reach(wire[0])], wire[Reach(wire[0])..];
      Prepend(block + Separator(wire[0], rest), Decode(rest))
  }

  /** The zero a block stands for, unless it is full or the last. */
  function Separator(code: byte, rest: seq<byte>): seq<byte> {
    if code != 0xFF && rest != [] then [0] else []
  }

  lemma PrependTwice(a: seq<byte>, b: seq<byte>, rest: Decoded)
    ensures Prepend(a, Prepend(b, rest)) == Prepend(a + b, rest)
  {
    if rest.Bytes? {
      Reassociated(a, b, rest.data);
    }
  }

  /** One block of the decoder, in the indices of the whole frame. */
  lemma DecodeAt(wire: seq<byte>, index: int, end: int)
    requires 0 <= index < end <= |wire| && wire[index] != 0
    requires end == index + Reach(wire[index])
    ensures Decode(wire[index..]) ==
            Prepend(wire[index + 1..end] + Separator(wire[index], wire[end..]), Decode(wire[end..]))
  {
    hide Reach;
    var tail := wire[index..];
    assert tail[1..end - index] == wire[index + 1..end] && tail[end - index..] == wire[end..];
  }

  lemma DecodeFails(wire: seq<byte>, index: int)
    requires 0 <= index < |wire|
    ensures wire[index] == 0 ==> Decode(wire[index..]) == ZeroInside
    ensures wire[index] != 0 && index + Reach(wire[index]) > |wire| ==> Decode(wire[index..]) == Truncated
  {
  }

  lemma DecodeEmpty()
    ensures Decode([]) == Bytes([])
  {
  }

  /** `cobs_decode`. */
  method CobsDecode(wire: seq<byte>) returns (r: Decoded)
    ensures r == Decode(wire)
  {
    hide Reach, Decode;
    DecodeEmpty();
    var output, index := [], 0;
    assert wire[0..] == wire && wire[|wire|..] == [];
    while index < |wire|
      invariant 0 <= index <= |wire|
      invariant Prepend(output, Decode(wire[index..])) == Decode(wire)
    {
      var code := wire[index];
      DecodeFails(wire, index);
      if code == 0 {
        return ZeroInside;
      }
      ReachCode(code);
      index := index + 1;
      var end := index + Reach(code) - 1;
      if end > |wire| {
        return Truncated;
      }
      DecodeAt(wire, index - 1, end);
      PrependTwice(output, wire[index..end] + Separator(code, wire[end..]), Decode(wire[end..]));
      Reassociated(output, wire[index..end], Separator(code, wire[end..]));
      output := output + wire[index..end];
      index := end;
      if code != 0xFF && index < |wire| {
        output := output + [0];
      }
    }
    return Bytes(output);
  }

  // ---- the two are inverse ----

  lemma DecodeBlock(run: seq<byte>, rest: seq<byte>)
    requires |run| <= 254
    ensures Decode([Code(|run| + 1)] + run + rest) ==
            Prepend(run + Separator(Code(|run| + 1), rest), Decode(rest))
  {
    hide Code, Reach;
    var wire := [Code(|run| + 1)] + run + rest;
    CodeReach(|run| + 1);
    assert wire[..] == wire && wire[0] == Code(|run| + 1);
    assert wire[1..|run| + 1] == run && wire[|run| + 1..] == rest;
    DecodeAt(wire, 0, |run| + 1);
    assert wire[0..] == wire;
  }

  lemma {:induction false} DecodeEncodeFrom(run: seq<byte>, data: seq<byte>)
    requires |run| <= 253
    ensures Decode(EncodeFrom(run, data)) == Bytes(run + data)
    decreases data
  {
    hide Code, Reach, Decode;
    CodeReach(|run| + 1);
    ReachCode(Code(|run| + 1));
    if data == [] {
      DecodeBlock(run, []);
      DecodeEmpty();
      assert [Code(|run| + 1)] + run + [] == [Code(|run| + 1)] + run;
      assert run + [] + [] == run + data;
    } else {
      var rest := EncodeFrom([], data[1..]);
      EncodeNonempty([], data[1..]);
      if data[0] == 0 {
        DecodeEncodeFrom([], data[1..]);
        DecodeBlock(run, rest);
        assert run + [0] + ([] + data[1..]) == run + data;
      } else if |run| == 253 {
        DecodeEncodeFrom([], data[1..]);
        DecodeBlock(run + [data[0]], rest);
        CodeReach(255);
        ReachCode(Code(255));
        assert (run + [data[0]]) + [] + ([] + data[1..]) == run + data;
      } else {
        DecodeEncodeFrom(run + [data[0]], data[1..]);
        assert (run + [data[0]]) + data[1..] == run + data;
      }
    }
  }

  lemma {:induction false} EncodeNonempty(run: seq<byte>, data: seq<byte>)
    requires |run| <= 253
    ensures EncodeFrom(run, data) != []
    decreases data
  {
    if data != [] && data[0] != 0 && |run| < 253 {
      EncodeNonempty(run + [data[0]], data[1..]);
    }
  }

  /** Decoding undoes encoding, for every byte string. */
  lemma DecodeEncode(data: seq<byte>)
    ensures Decode(Encode(data)) == Bytes(data)
  {
    DecodeEncodeFrom([], data);
    assert [] + data == data;
  }

  ghost predicate ZeroFree(s: seq<byte>) {
    forall i :: 0 <= i < |s| ==> s[i] != 0
  }

  lemma {:induction false} EncodeFromZeroFree(run: seq<byte>, data: seq<byte>)
    requires |run| <= 253 && ZeroFree(run)
    ensures ZeroFree(EncodeFrom(run, data))
    decreases data
  {
    hide Code;
    CodeReach(|run| + 1);
    CodeReach(255);
    if data != [] {
      if data[0] == 0 || |run| == 253 {
        EncodeFromZeroFree([], data[1..]);
      } else {
        EncodeFromZeroFree(run + [data[0]], data[1..]);
      }
    }
  }

  /** No encoding holds the frame delimiter. */
  lemma EncodeZeroFree(data: seq<byte>)
    ensures ZeroFree(Encode(data))
  {
    EncodeFromZeroFree([], data);
  }

  // ---- length ----

  /** The length of the leading run of non-zero bytes. */
  ghost function LeadingRun(data: seq<byte>): (n: nat)
    ensures n <= |data|
  {
    if data == [] || data[0] == 0 then 0 else 1 + LeadingRun(data[1..])
  }

  /** How many full 254-byte blocks the maximal non-zero runs of `data` hold. */
  ghost function FullBlocks(data: seq<byte>): nat
    decreases |data|
  {
    var n := LeadingRun(data);
    n / 254 + if n < |data| then FullBlocks(data[n + 1..]) else 0
  }

  /** The same count when the current run has already k bytes. */
  ghost function FullBlocksFrom(k: nat, data: seq<byte>): nat {
    var n := LeadingRun(data);
    (k + n) / 254 + if n < |data| then FullBlocks(data[n + 1..]) else 0
  }

  lemma FullBlocksStep(k: nat, data: seq<byte>)
    requires data != [] && k <= 253
    ensures data[0] == 0 ==> FullBlocksFrom(k, data) == FullBlocksFrom(0, data[1..])
    ensures data[0] != 0 && k < 253 ==> FullBlocksFrom(k, data) == FullBlocksFrom(k + 1, data[1..])
    ensures data[0] != 0 && k == 253 ==> FullBlocksFrom(k, data) == 1 + FullBlocksFrom(0, data[1..])
  {
    if data[0] != 0 {
      var n := LeadingRun(data[1..]);
      assert LeadingRun(data) == 1 + n;
      assert n < |data| - 1 ==> data[1..][n + 1..] == data[n + 2..];
    }
  }

  lemma {:induction false} EncodeFromLength(run: seq<byte>, data: seq<byte>)
    requires |run| <= 253
    ensures |EncodeFrom(run, data)| == |run| + |data| + 1 + FullBlocksFrom(|run|, data)
    decreases data
  {
    if data != [] {
      hide Code, FullBlocksFrom;
      FullBlocksStep(|run|, data);
      if data[0] == 0 || |run| == 253 {
        EncodeFromLength([], data[1..]);
      } else {
        EncodeFromLength(run + [data[0]], data[1..]);
      }
    }
  }

  /** The overhead is one byte plus one for every full block. */
  lemma EncodeLength(data: seq<byte>)
    ensures |Encode(data)| == |data| + 1 + FullBlocks(data)
  {
    EncodeFromLength([], data);
  }

  /** Nor can it exceed one byte in 254, rounded up. */
  lemma {:induction false} FullBlocksBound(data: seq<byte>)
    ensures 254 * FullBlocks(data) <= |data|
    decreases |data|
  {
    var n := LeadingRun(data);
    if n < |data| {
      FullBlocksBound(data[n + 1..]);
    }
  }

  // ---- encoding undoes decoding, up to the last block ----

  /** Does the frame end in a block that is not full? */
  predicate EndsOpen(wire: seq<byte>)
    requires Decode(wire).Bytes?
    decreases |wire|
  {
    wire != [] &&
    (ReachCode(wire[0]);
     var rest := wire[Reach(wire[0])..];
     if rest == [] then wire[0] != 0xFF else EndsOpen(rest))
  }

  lemma {:induction false} EncodeRun(run: seq<byte>, block: seq<byte>, rest: seq<byte>)
    requires |run| + |block| <= 253 && ZeroFree(block)
    ensures EncodeFrom(run, block + rest) == EncodeFrom(run + block, rest)
    decreases block
  {
    hide Code;
    if block == [] {
      assert block + rest == rest && run + block == run;
    } else {
      assert (block + rest)[0] == block[0] && (block + rest)[1..] == block[1..] + rest;
      EncodeRun(run + [block[0]], block[1..], rest);
      assert run + [block[0]] + block[1..] == run + block;
    }
  }

  lemma EncodeFullBlock(block: seq<byte>, rest: seq<byte>)
    requires |block| == 254 && ZeroFree(block)
    ensures Encode(block + rest) == [Code(255)] + block + Encode(rest)
  {
    hide Code;
    var head, last := block[..253], block[253];
    assert block + rest == head + ([last] + rest);
    EncodeRun([], head, [last] + rest);
    assert [] + head == head && head + [last] == block;
    assert ([last] + rest)[0] == last && ([last] + rest)[1..] == rest;
  }

  lemma EncodeOpenBlock(block: seq<byte>, rest: seq<byte>)
    requires |block| <= 253 && ZeroFree(block)
    ensures Encode(block + ([0] + rest)) == [Code(|block| + 1)] + block + Encode(rest)
    ensures Encode(block) == [Code(|block| + 1)] + block
  {
    hide Code;
    EncodeRun([], block, [0] + rest);
    EncodeRun([], block, []);
    assert [] + block == block && block + [] == block;
    assert ([0] + rest)[0] == 0 && ([0] + rest)[1..] == rest;
  }

  /**
   Re-encoding what was decoded: a zero-free frame comes back unchanged exactly
   when it ends in an open block; otherwise the encoder closes it with one
   more, empty, block.
   */
  lemma {:induction false} EncodeDecode(wire: seq<byte>)
    requires ZeroFree(wire) && Decode(wire).Bytes?
    ensures Encode(Decode(wire).data) == if EndsOpen(wire) then wire else wire + [Code(1)]
    decreases |wire|
  {
    if wire == [] {
      assert [Code(1)] + [] == [] + [Code(1)];
    } else {
      ReachCode(wire[0]);
      var k := Reach(wire[0]);
      var block, rest := wire[1..k], wire[k..];
      EncodeDecodeBlock(wire, block, rest);
    }
  }

  /** How decoding and the shape of the end unfold over the first block. */
  lemma FirstBlock(wire: seq<byte>, block: seq<byte>, rest: seq<byte>)
    requires wire != [] && Decode(wire).Bytes?
    requires 1 <= Reach(wire[0]) <= |wire| && block == wire[1..Reach(wire[0])] && rest == wire[Reach(wire[0])..]
    ensures Decode(rest).Bytes? && Decode(wire).data == block + Separator(wire[0], rest) + Decode(rest).data
    ensures EndsOpen(wire) == if rest == [] then wire[0] != 0xFF else EndsOpen(rest)
    ensures rest == [] ==> Decode(rest).data == [] && !EndsOpen(rest)
  {
    hide Reach;
    ReachCode(wire[0]);
    assert Decode(wire) == Prepend(block + Separator(wire[0], rest), Decode(rest));
    assert Decode(rest).Bytes?;
  }

  lemma {:induction false} EncodeDecodeBlock(wire: seq<byte>, block: seq<byte>, rest: seq<byte>)
    requires ZeroFree(wire) && wire != [] && Decode(wire).Bytes?
    requires 1 <= Reach(wire[0]) <= |wire| && block == wire[1..Reach(wire[0])] && rest == wire[Reach(wire[0])..]
    ensures Encode(Decode(wire).data) == if EndsOpen(wire) then wire else wire + [Code(1)]
    decreases |wire|, 0
  {
    hide Code, Reach, Encode, Decode, EndsOpen, ZeroFree;
    ZeroFreeParts(wire, Reach(wire[0]));
    ReachCode(wire[0]);
    FirstBlock(wire, block, rest);
    EncodeDecode(rest);
    var x := Decode(rest).data;
    assert wire == [wire[0]] + block + rest;
    Reassociated([wire[0]] + block, rest, [Code(1)]);
    if wire[0] == 0xFF {
      EncodeFullBlock(block, x);
      assert block + [] + x == block + x;
    } else {
      EncodeOpenBlock(block, x);
      Reassociated(block, [0], x);
      assert rest == [] ==> block + [] + x == block;
    }
  }

  lemma ZeroFreeParts(wire: seq<byte>, r: nat)
    requires ZeroFree(wire) && 1 <= r <= |wire|
    ensures wire[0] != 0 && ZeroFree(wire[1..r]) && ZeroFree(wire[r..])
  {
  }

  /** The short frames of this protocol: encode and decode are inverse both ways. */
  lemma ShortFrameRoundTrip(wire: seq<byte>)
    requires ZeroFree(wire) && Decode(wire).Bytes? && 1 <= |wire| <= 254
    ensures Encode(Decode(wire).data) == wire
  {
    ShortFrameEndsOpen(wire);
    EncodeDecode(wire);
  }

  lemma {:induction false} ShortFrameEndsOpen(wire: seq<byte>)
    requires Decode(wire).Bytes? && 1 <= |wire| <= 254
    ensures EndsOpen(wire)
    decreases |wire|
  {
    ReachCode(wire[0]);
    var rest := wire[Reach(wire[0])..];
    if rest != [] {
      ShortFrameEndsOpen(rest);
    }
  }
}
