/**
 The request and response frames of tools/mks57d_rs485.py: an eight-byte
 big-endian header, the payload and a CRC, stuffed and closed with a zero.
 */
module Frame {
  import opened Crc16
  import opened Cobs

  const PROTOCOL_VERSION: byte := 1
  const MESSAGE_REQUEST: byte := 1
  const MESSAGE_RESPONSE: byte := 2
  const MAX_REQUEST_PAYLOAD: int := 64

  datatype Error =
    | PayloadTooLong | NoDelimiter | ZeroInFrame | TruncatedFrame | TooShort
    | BadHeader | LengthMismatch | CrcMismatch
    | IdentityMismatch | Timeout | NoStatus | DeviceStatus(status: byte)

  datatype Result<T> = Ok(value: T) | Err(error: Error)

  type uint16 = x: int | 0 <= x < 65536

  datatype Message = Message(address: byte, sequence: uint16, command: uint16, payload: seq<byte>)

  /** A number as a one-byte field; `Reach` reads it back. */
  function ByteOf(n: int): byte
    requires 0 <= n <= 255
  {
    if n == 0 then 0 else Code(n)
  }

  /** A big-endian 16-bit field. */
  function Field(hi: byte, lo: byte): uint16 {
    ReachByteOf(hi);
    ReachByteOf(lo);
    256 * Reach(hi) + Reach(lo)
  }

  function Header(messageType: byte, m: Message): (h: seq<byte>)
    requires |m.payload| <= 255
    ensures |h| == 8
  {
    [PROTOCOL_VERSION, m.address, ByteOf(m.sequence / 256), ByteOf(m.sequence % 256), messageType,
     ByteOf(m.command / 256), ByteOf(m.command % 256), ByteOf(|m.payload|)]
  }

  function Body(messageType: byte, m: Message): seq<byte>
    requires |m.payload| <= 255
  {
    Header(messageType, m) + m.payload
  }

  function Sealed(body: seq<byte>): seq<byte> {
    body + [HighOf(Checksum(body)), LowOf(Checksum(body))]
  }

  function Wire(messageType: byte, m: Message): seq<byte>
    requires |m.payload| <= 255
  {
    Encode(Sealed(Body(messageType, m))) + [0]
  }

  /** `encode_request`. */
  function EncodeRequest(m: Message): Result<seq<byte>> {
    if |m.payload| > MAX_REQUEST_PAYLOAD then Err(PayloadTooLong) else Ok(Wire(MESSAGE_REQUEST, m))
  }

  /** What a device answers with: the same layout with the response type. */
  function EncodeResponse(m: Message): seq<byte>
    requires |m.payload| <= 255
  {
    Wire(MESSAGE_RESPONSE, m)
  }

  /** The part of `decode_response` after the stuffing is removed. */
  function OpenResponse(d: seq<byte>): Result<Message> {
    if |d| < 10 then Err(TooShort)
    else if d[0] != PROTOCOL_VERSION || d[4] != MESSAGE_RESPONSE then Err(BadHeader)
    else if |d| != 8 + Reach(d[7]) + 2 then Err(LengthMismatch)
    else if !Passes(d) then Err(CrcMismatch)
    else Ok(Message(d[1], Field(d[2], d[3]), Field(d[5], d[6]), d[8..|d| - 2]))
  }

  /** `decode_response`. */
  function DecodeResponse(wire: seq<byte>): Result<Message> {
    if wire == [] || wire[|wire| - 1] != 0 then Err(NoDelimiter)
    else
      match Decode(wire[..|wire| - 1])
      case ZeroInside => Err(ZeroInFrame)
      case Truncated => Err(TruncatedFrame)
      case Bytes(d) => OpenResponse(d)
  }

  // ---- round trips ----

  lemma ByteOfReach(n: int)
    requires 0 <= n <= 255
    ensures Reach(ByteOf(n)) == n
  {
    if n != 0 {
      CodeReach(n);
    }
  }

  lemma ReachByteOf(b: byte)
    ensures 0 <= Reach(b) <= 255 && ByteOf(Reach(b)) == b
  {
    if b != 0 {
      ReachCode(b);
    }
  }

  lemma SealedPasses(body: seq<byte>)
    ensures Passes(Sealed(body))
  {
    hide Absorb, Word, HighOf, LowOf;
    WordParts(Checksum(body));
    assert Sealed(body)[..|body|] == body;
  }

  /** A frame that passes is its body sealed: the checksum field is determined. */
  lemma PassesIsSealed(d: seq<byte>)
    requires |d| >= 2 && Passes(d)
    ensures d == Sealed(d[..|d| - 2])
  {
    hide Absorb, Word, HighOf, LowOf;
    ChecksumField(d[|d| - 2], d[|d| - 1]);
  }

  lemma ChecksumField(hi: byte, lo: byte)
    ensures HighOf(Word(hi, lo)) == hi && LowOf(Word(hi, lo)) == lo
  {
  }

  lemma FieldOfNumber(w: uint16)
    ensures Field(ByteOf(w / 256), ByteOf(w % 256)) == w
  {
    hide Reach, ByteOf;
    ByteOfReach(w / 256);
    ByteOfReach(w % 256);
  }

  lemma NumberOfField(hi: byte, lo: byte)
    ensures ByteOf(Field(hi, lo) / 256) == hi && ByteOf(Field(hi, lo) % 256) == lo
  {
    hide Reach, ByteOf;
    ReachByteOf(hi);
    ReachByteOf(lo);
  }

  lemma OpenSealedResponse(m: Message)
    requires |m.payload| <= 255
    ensures OpenResponse(Sealed(Body(MESSAGE_RESPONSE, m))) == Ok(m)
  {
    hide Checksum, Passes, Word, HighOf, LowOf, Reach, ByteOf, Field;
    var body := Body(MESSAGE_RESPONSE, m);
    var d := Sealed(body);
    ByteOfReach(|m.payload|);
    SealedPasses(body);
    FieldOfNumber(m.sequence);
    FieldOfNumber(m.command);
    assert d[8..|d| - 2] == m.payload;
  }

  lemma UnstuffedWire(messageType: byte, m: Message)
    requires |m.payload| <= 255
    ensures
      var wire := Wire(messageType, m);
      && wire != [] && wire[|wire| - 1] == 0
      && Decode(wire[..|wire| - 1]) == Bytes(Sealed(Body(messageType, m)))
  {
    var sealed := Sealed(Body(messageType, m));
    DecodeEncode(sealed);
    assert (Encode(sealed) + [0])[..|Encode(sealed)|] == Encode(sealed);
  }

  /** Whatever a device encodes, the host decodes. */
  lemma ResponseRoundTrip(m: Message)
    requires |m.payload| <= 255
    ensures DecodeResponse(EncodeResponse(m)) == Ok(m)
  {
    hide Decode, OpenResponse, Wire, Sealed, Body;
    UnstuffedWire(MESSAGE_RESPONSE, m);
    OpenSealedResponse(m);
  }

  lemma OpenIsSealedBody(d: seq<byte>)
    requires OpenResponse(d).Ok?
    ensures var m := OpenResponse(d).value; |m.payload| <= 255 && d == Sealed(Body(MESSAGE_RESPONSE, m))
  {
    hide Checksum, Passes, Word, HighOf, LowOf, Reach, ByteOf, Field, Sealed;
    var m := OpenResponse(d).value;
    PassesIsSealed(d);
    ReachByteOf(d[7]);
    NumberOfField(d[2], d[3]);
    NumberOfField(d[5], d[6]);
    assert d[..|d| - 2] == Header(MESSAGE_RESPONSE, m) + m.payload;
  }

  /**
   The converse: a frame with no zero before its delimiter is accepted only if
   it is the encoding of the message it decodes to, or that encoding without
   the empty block that follows a full one. Frames of at most 255 bytes are
   always of the first kind, so no two of them carry the same message.
   */
  lemma AcceptedIsEncoded(wire: seq<byte>)
    requires DecodeResponse(wire).Ok? && ZeroFree(wire[..|wire| - 1])
    ensures
      var m := DecodeResponse(wire).value;
      var stuffed := wire[..|wire| - 1];
      && |m.payload| <= 255
      && EncodeResponse(m) == if EndsOpen(stuffed) then wire else stuffed + [Code(1)] + [0]
    ensures |wire| <= 255 ==> wire == EncodeResponse(DecodeResponse(wire).value)
  {
    hide Decode, OpenResponse, Encode, Sealed, Body, EndsOpen, Code;
    var stuffed := wire[..|wire| - 1];
    assert wire == stuffed + [0];
    OpenIsSealedBody(Decode(stuffed).data);
    EncodeDecode(stuffed);
    if |wire| <= 255 {
      TooShortForNothing(stuffed);
      ShortFrameEndsOpen(stuffed);
    }
  }

  lemma TooShortForNothing(stuffed: seq<byte>)
    requires Decode(stuffed).Bytes? && OpenResponse(Decode(stuffed).data).Ok?
    ensures stuffed != []
  {
  }

  /**
   What a device finds in a frame from the host: the bytes before the only zero
   unstuff to version 1, address, sequence, message type 1, command, payload
   length, payload and a CRC that passes.
   */
  ghost predicate DeviceReads(wire: seq<byte>, m: Message) {
    && wire != [] && wire[|wire| - 1] == 0 && ZeroFree(wire[..|wire| - 1])
    && Decode(wire[..|wire| - 1]).Bytes?
    && var d := Decode(wire[..|wire| - 1]).data;
       && |d| == |m.payload| + 10
       && d[0] == 1 && d[1] == m.address
       && Field(d[2], d[3]) == m.sequence
       && d[4] == 1
       && Field(d[5], d[6]) == m.command
       && Reach(d[7]) == |m.payload|
       && d[8..|d| - 2] == m.payload
       && Passes(d)
  }

  /** Every request of at most 64 payload bytes reaches the device as it was meant; longer ones are refused. */
  lemma RequestReachesDevice(m: Message)
    ensures |m.payload| <= 64 ==> EncodeRequest(m).Ok? && DeviceReads(EncodeRequest(m).value, m)
    ensures |m.payload| > 64 ==> EncodeRequest(m) == Err(PayloadTooLong)
  {
    if |m.payload| <= 64 {
      hide Decode, Encode, Checksum, HighOf, LowOf, ByteOf, Field, Reach, Passes;
      var body := Body(MESSAGE_REQUEST, m);
      var d := Sealed(body);
      var wire := EncodeRequest(m).value;
      assert wire == Encode(d) + [0] && wire[..|wire| - 1] == Encode(d);
      DecodeEncode(d);
      EncodeZeroFree(d);
      SealedPasses(body);
      RequestFields(m);
      assert d[8..|d| - 2] == m.payload;
    }
  }

  lemma RequestFields(m: Message)
    requires |m.payload| <= 255
    ensures
      var h := Header(1, m);
      && h[0] == 1 && h[1] == m.address && h[4] == 1
      && Field(h[2], h[3]) == m.sequence && Field(h[5], h[6]) == m.command && Reach(h[7]) == |m.payload|
  {
    hide ByteOf, Field, Reach;
    FieldOfNumber(m.sequence);
    FieldOfNumber(m.command);
    ByteOfReach(|m.payload|);
  }

  /** The host accepts exactly the delimited frames that unstuff to a version 1 response of the stated length with a passing CRC. */
  lemma AcceptedIff(wire: seq<byte>)
    ensures DecodeResponse(wire).Ok? <==>
            && wire != [] && wire[|wire| - 1] == 0
            && Decode(wire[..|wire| - 1]).Bytes?
            && var d := Decode(wire[..|wire| - 1]).data;
               |d| >= 10 && d[0] == 1 && d[4] == 2 && |d| == Reach(d[7]) + 10 && Passes(d)
    ensures DecodeResponse(wire).Ok? ==>
              var d := Decode(wire[..|wire| - 1]).data;
              DecodeResponse(wire).value == Message(d[1], Field(d[2], d[3]), Field(d[5], d[6]), d[8..|d| - 2])
  {
    hide Decode, Passes, Field, Reach;
  }

  /** A request never passes for a response. */
  lemma RequestIsNotAResponse(m: Message)
    requires |m.payload| <= MAX_REQUEST_PAYLOAD
    ensures EncodeRequest(m).Ok? && DecodeResponse(EncodeRequest(m).value) == Err(BadHeader)
  {
    hide Decode, Encode, Checksum, Wire, HighOf, LowOf, ByteOf;
    UnstuffedWire(MESSAGE_REQUEST, m);
  }

  /** A response within the firmware's 80-byte payload limit fits the host's 92-byte read. */
  lemma ResponseFitsRead(m: Message)
    requires |m.payload| <= 80
    ensures |EncodeResponse(m)| == |m.payload| + 12 <= 92
    ensures ZeroFree(EncodeResponse(m)[..|EncodeResponse(m)| - 1])
  {
    hide Encode, FullBlocks, Checksum, HighOf, LowOf, ByteOf;
    var sealed := Sealed(Body(MESSAGE_RESPONSE, m));
    EncodeLength(sealed);
    FullBlocksBound(sealed);
    EncodeZeroFree(sealed);
    assert EncodeResponse(m)[..|Encode(sealed)|] == Encode(sealed);
  }

  /** Damage to one byte or two adjacent ones of an accepted frame is never accepted. */
  lemma DamagedResponseIsRejected(d: seq<byte>, damaged: seq<byte>, k: nat)
    requires OpenResponse(d).Ok? && k < |d| && DifferOnlyAt(d, damaged, k) && d != damaged
    ensures OpenResponse(damaged).Err?
  {
    hide Checksum, Passes, Word, Reach;
    DamageIsDetected(d, damaged, k);
  }
}
