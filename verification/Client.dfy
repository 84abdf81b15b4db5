/**
 `Client.transact` of tools/mks57d_rs485.py: one request, at most four response
 frames, and a sequence number that ties the answer to the question. What
 `read_until` returned on each call is a parameter; an empty read is a timeout.
 */
module Client {
  import opened Crc16
  import opened Cobs
  import opened Frame

  const MAX_RESPONSE_FRAMES: int := 4

  /** The sequence number after s, masked to 16 bits and never 0. */
  function NextSequence(s: uint16): uint16 {
    if (s + 1) % 65536 == 0 then 1 else (s + 1) % 65536
  }

  predicate Answers(r: Message, request: Message) {
    r.address == request.address && r.sequence == request.sequence && r.command == request.command
  }

  /** The status byte decides what the caller gets. */
  function Unwrap(r: Message): Result<seq<byte>> {
    if r.payload == [] then Err(NoStatus)
    else if r.payload[0] != 0 then Err(DeviceStatus(r.payload[0]))
    else Ok(r.payload[1..])
  }

  class Client {
    const address: byte
    var sequence: uint16

    constructor (address: byte)
      ensures this.address == address && sequence == 1
    {
      this.address := address;
      sequence := 1;
    }

    /** `written` is what goes to the serial port. */
    method Transact(command: uint16, payload: seq<byte>, frames: seq<seq<byte>>)
      returns (request: Message, written: seq<byte>, r: Result<seq<byte>>)
      modifies this
      ensures sequence == NextSequence(old(sequence))
      ensures request == Message(address, old(sequence), command, payload)
      ensures |payload| > 64 ==> written == [] && r == Err(PayloadTooLong)
      ensures |payload| <= 64 ==> DeviceReads(written, request) && r == Outcome(request, frames)
    {
      hide Outcome, EncodeRequest, DeviceReads;
      request := Message(address, sequence, command, payload);
      sequence := (sequence + 1) % 65536;
      if sequence == 0 {
        sequence := 1;
      }
      var encoded := EncodeRequest(request);
      RequestReachesDevice(request);
      if encoded.Err? {
        return request, [], Err(PayloadTooLong);
      }
      written := encoded.value;
      r := Listen(request, frames);
    }
  }

  /** The receive loop of `transact`. */
  method Listen(request: Message, frames: seq<seq<byte>>) returns (r: Result<seq<byte>>)
    ensures r == Outcome(request, frames)
  {
    hide DecodeResponse, Unwrap, Outcome, Answers;
    var lastError := Timeout;
    var i := 0;
    while i < MAX_RESPONSE_FRAMES
      invariant 0 <= i <= MAX_RESPONSE_FRAMES && i <= |frames|
      invariant NoneAnswers(request, frames, i)
      invariant lastError == LastError(frames, i)
    {
      if i >= |frames| || frames[i] == [] {
        EmptyIsNoAnswer(request, frames, i);
        AnswerOutcome(request, frames, i);
        return Err(lastError);
      }
      var response := DecodeResponse(frames[i]);
      if response.Err? {
        lastError := response.error;
      } else if !Answers(response.value, request) {
        lastError := IdentityMismatch;
      } else {
        AnswerOutcome(request, frames, i);
        return Unwrap(response.value);
      }
      i := i + 1;
    }
    AnswerOutcome(request, frames, i);
    return Err(lastError);
  }

  // ---- specification ----

  /** Is read i a frame that answers the request? */
  ghost predicate AnswersAt(request: Message, frames: seq<seq<byte>>, i: nat) {
    i < |frames| && DecodeResponse(frames[i]).Ok? && Answers(DecodeResponse(frames[i]).value, request)
  }

  /** The first i frames are all frames, none of which answers. */
  ghost predicate NoneAnswers(request: Message, frames: seq<seq<byte>>, i: nat) {
    i <= |frames| && forall j :: 0 <= j < i ==> frames[j] != [] && !AnswersAt(request, frames, j)
  }

  /** What is reported when nothing answered: why the last frame was refused. */
  ghost function LastError(frames: seq<seq<byte>>, i: nat): Error
    requires i <= |frames|
  {
    if i == 0 then Timeout
    else if DecodeResponse(frames[i - 1]).Err? then DecodeResponse(frames[i - 1]).error
    else IdentityMismatch
  }

  /** Where listening stops: at an answer, a timeout, or the frame limit. */
  ghost predicate StopsAt(request: Message, frames: seq<seq<byte>>, i: nat) {
    && i <= MAX_RESPONSE_FRAMES
    && NoneAnswers(request, frames, i)
    && (i == MAX_RESPONSE_FRAMES || i == |frames| || frames[i] == [] || AnswersAt(request, frames, i))
  }

  lemma StopsOnce(request: Message, frames: seq<seq<byte>>, i: nat, j: nat)
    requires StopsAt(request, frames, i) && StopsAt(request, frames, j)
    ensures i == j
  {
    hide DecodeResponse;
  }

  lemma {:induction false} StopExists(request: Message, frames: seq<seq<byte>>, from: nat)
    requires from <= MAX_RESPONSE_FRAMES && NoneAnswers(request, frames, from)
    ensures exists i: nat :: StopsAt(request, frames, i)
    decreases MAX_RESPONSE_FRAMES - from
  {
    hide DecodeResponse;
    if !StopsAt(request, frames, from) {
      StopExists(request, frames, from + 1);
    }
  }

  /** The result of a transaction, read off the place where listening stops. */
  ghost function Outcome(request: Message, frames: seq<seq<byte>>): Result<seq<byte>> {
    StopExists(request, frames, 0);
    var i: nat :| StopsAt(request, frames, i);
    if i < MAX_RESPONSE_FRAMES && AnswersAt(request, frames, i)
    then Unwrap(DecodeResponse(frames[i]).value)
    else Err(LastError(frames, i))
  }

  lemma AnswerOutcome(request: Message, frames: seq<seq<byte>>, i: nat)
    requires StopsAt(request, frames, i)
    ensures Outcome(request, frames) ==
            if i < MAX_RESPONSE_FRAMES && AnswersAt(request, frames, i)
            then Unwrap(DecodeResponse(frames[i]).value) else Err(LastError(frames, i))
  {
    hide DecodeResponse, Unwrap;
    forall j: nat | StopsAt(request, frames, j)
      ensures j == i
    {
      StopsOnce(request, frames, i, j);
    }
  }

  /**
   A transaction succeeds with `body` exactly when one of the first four
   frames, with no timeout before it, answers the request with status zero and
   that body, and no earlier frame answers it.
   */
  lemma OutcomeIff(request: Message, frames: seq<seq<byte>>, body: seq<byte>)
    ensures Outcome(request, frames) == Ok(body) <==>
            exists i: nat ::
              && i < MAX_RESPONSE_FRAMES && NoneAnswers(request, frames, i) && AnswersAt(request, frames, i)
              && frames[i] != [] && DecodeResponse(frames[i]).value.payload == [0] + body
  {
    hide DecodeResponse;
    StopExists(request, frames, 0);
    var i: nat :| StopsAt(request, frames, i);
    AnswerOutcome(request, frames, i);
    assert Outcome(request, frames) == Ok(body) ==> DecodeResponse(frames[i]).value.payload == [0] + body;
    assert Outcome(request, frames) == Ok(body) ==> frames[i] != [] by { EmptyIsNoAnswer(request, frames, i); }
    forall j: nat | j < MAX_RESPONSE_FRAMES && NoneAnswers(request, frames, j) && AnswersAt(request, frames, j)
      && frames[j] != [] && DecodeResponse(frames[j]).value.payload == [0] + body
      ensures Outcome(request, frames) == Ok(body)
    {
      AnswerOutcome(request, frames, j);
      assert ([0] + body)[1..] == body;
    }
  }

  /** A frame answers exactly when it is accepted and carries the address, sequence and command of the request. */
  lemma AnswersIff(request: Message, frames: seq<seq<byte>>, i: nat)
    ensures AnswersAt(request, frames, i) <==>
            && i < |frames| && DecodeResponse(frames[i]).Ok?
            && var m := DecodeResponse(frames[i]).value;
               m.address == request.address && m.sequence == request.sequence && m.command == request.command
  {
    hide DecodeResponse;
  }

  /** The first frame that answers, before any timeout and among the first four. */
  ghost predicate FirstAnswer(request: Message, frames: seq<seq<byte>>, i: nat) {
    i < 4 && NoneAnswers(request, frames, i) && AnswersAt(request, frames, i) && frames[i] != []
  }

  lemma AnswerStops(request: Message, frames: seq<seq<byte>>, i: nat)
    requires FirstAnswer(request, frames, i)
    ensures Outcome(request, frames) == Unwrap(DecodeResponse(frames[i]).value)
  {
    hide DecodeResponse, Unwrap, Outcome;
    AnswerOutcome(request, frames, i);
  }

  /** Refusing a frame is never mistaken for the device's own status. */
  lemma DecodeErrors(wire: seq<byte>)
    ensures DecodeResponse(wire).Err? ==>
              !DecodeResponse(wire).error.DeviceStatus? && DecodeResponse(wire).error != NoStatus
  {
    hide Decode, Passes;
  }

  /**
   The errors of an answered request: the device's status exactly when the first
   answer carries it, a missing status exactly when that answer is empty.
   */
  lemma ErrorIff(request: Message, frames: seq<seq<byte>>, status: byte)
    ensures Outcome(request, frames) == Err(DeviceStatus(status)) <==>
            exists i: nat ::
              && FirstAnswer(request, frames, i)
              && var payload := DecodeResponse(frames[i]).value.payload;
                 payload != [] && payload[0] == status && status != 0
    ensures Outcome(request, frames) == Err(NoStatus) <==>
            exists i: nat :: FirstAnswer(request, frames, i) && DecodeResponse(frames[i]).value.payload == []
  {
    hide DecodeResponse, Outcome;
    StopExists(request, frames, 0);
    var i: nat :| StopsAt(request, frames, i);
    AnswerOutcome(request, frames, i);
    if i < 4 && AnswersAt(request, frames, i) {
      EmptyIsNoAnswer(request, frames, i);
      assert FirstAnswer(request, frames, i);
    } else if i > 0 {
      DecodeErrors(frames[i - 1]);
    }
    forall j: nat | FirstAnswer(request, frames, j) ensures j == i {
      StopsOnce(request, frames, i, j);
    }
  }

  /** A fifth frame is never read. */
  lemma FourFramesAtMost(request: Message, frames: seq<seq<byte>>)
    requires |frames| >= 4
    ensures Outcome(request, frames) == Outcome(request, frames[..4])
  {
    hide DecodeResponse, Unwrap, Outcome;
    StopExists(request, frames, 0);
    var i: nat :| StopsAt(request, frames, i);
    var few := frames[..4];
    assert forall j: nat :: j < 4 ==> few[j] == frames[j];
    assert forall j: nat :: j < 4 ==> (AnswersAt(request, few, j) <==> AnswersAt(request, frames, j));
    assert StopsAt(request, few, i);
    AnswerOutcome(request, frames, i);
    AnswerOutcome(request, few, i);
  }

  /** Silence before any frame is a timeout; after refused frames the last refusal is reported. */
  lemma SilenceOutcome(request: Message, frames: seq<seq<byte>>, i: nat)
    requires i <= 4 && NoneAnswers(request, frames, i) && (i == 4 || i == |frames| || frames[i] == [])
    ensures i == 0 ==> Outcome(request, frames) == Err(Timeout)
    ensures i > 0 ==>
              Outcome(request, frames) ==
              Err(if DecodeResponse(frames[i - 1]).Err? then DecodeResponse(frames[i - 1]).error else IdentityMismatch)
  {
    hide DecodeResponse, Unwrap, Outcome;
    if i < 4 && AnswersAt(request, frames, i) {
      EmptyIsNoAnswer(request, frames, i);
    }
    AnswerOutcome(request, frames, i);
  }

  lemma EmptyIsNoAnswer(request: Message, frames: seq<seq<byte>>, i: nat)
    ensures AnswersAt(request, frames, i) ==> frames[i] != []
  {
  }

  // ---- sequence numbers ----

  function SequenceAt(n: nat): uint16 {
    if n == 0 then 1 else NextSequence(SequenceAt(n - 1))
  }

  /** The n-th transaction's number in closed form: 0 is skipped at every wrap. */
  lemma {:induction false} SequenceClosedForm(n: nat)
    ensures SequenceAt(n) == n % 65535 + 1
  {
    hide NextSequence;
    if n > 0 {
      SequenceClosedForm(n - 1);
      NextClosedForm(n - 1);
    }
  }

  lemma NextClosedForm(k: nat)
    ensures NextSequence(k % 65535 + 1) == (k + 1) % 65535 + 1
  {
    if k % 65535 == 65534 {
      assert (k + 1) % 65535 == 0;
    } else {
      assert (k + 1) % 65535 == k % 65535 + 1;
    }
  }

  /** Numbers repeat only after 65535 transactions. */
  lemma SequencesDiffer(i: nat, j: nat)
    requires i < j < i + 65535
    ensures SequenceAt(i) != SequenceAt(j)
  {
    hide SequenceAt;
    SequenceClosedForm(i);
    SequenceClosedForm(j);
    RemaindersDiffer(i, j);
  }

  lemma RemaindersDiffer(i: nat, j: nat)
    requires i < j < i + 65535
    ensures i % 65535 != j % 65535
  {
    var p, q := i / 65535, j / 65535;
    assert i == 65535 * p + i % 65535 && j == 65535 * q + j % 65535;
  }

  /**
   End to end: the device's answer to the n-th request is returned even when up
   to three answers to any of the previous 65534 requests are read first.
   */
  lemma StaleAnswersAreSkipped(request: Message, answer: Message, stale: seq<Message>, ages: seq<nat>, n: nat)
    requires |stale| == |ages| < MAX_RESPONSE_FRAMES
    requires request.sequence == SequenceAt(n)
    requires forall j :: 0 <= j < |stale| ==>
               && |stale[j].payload| <= 255 && 0 < ages[j] < 65535 && ages[j] <= n
               && stale[j].sequence == SequenceAt(n - ages[j])
    requires Answers(answer, request) && 1 <= |answer.payload| <= 255 && answer.payload[0] == 0
    ensures Outcome(request, seq(|stale|, j requires 0 <= j < |stale| => EncodeResponse(stale[j])) + [EncodeResponse(answer)])
            == Ok(answer.payload[1..])
  {
    hide DecodeResponse, EncodeResponse, SequenceAt;
    var frames := seq(|stale|, j requires 0 <= j < |stale| => EncodeResponse(stale[j])) + [EncodeResponse(answer)];
    forall j | 0 <= j < |stale|
      ensures frames[j] != [] && !AnswersAt(request, frames, j)
    {
      ResponseRoundTrip(stale[j]);
      EncodedNonempty(stale[j]);
      SequencesDiffer(n - ages[j], n);
    }
    ResponseRoundTrip(answer);
    assert frames[|stale|] == EncodeResponse(answer);
    AnswerOutcome(request, frames, |stale|);
  }

  lemma EncodedNonempty(m: Message)
    requires |m.payload| <= 255
    ensures EncodeResponse(m) != []
  {
  }
}
