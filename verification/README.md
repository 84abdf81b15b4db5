# Verified model of the closed-loop stepper drive

The repository holds the firmware of a closed-loop stepper drive and the host
tools that talk to it. This project models the parts of it whose correctness
spans several functions, and proves what those parts are for.

- **Runtime, supervisor and foreground.** A 4 kHz SPI callback advances four
  nested controllers (alignment, or position over velocity over torque) while
  the foreground loop fills mailboxes, grants authority and reads events.
  `RotorRuntime` and `Supervisor` are the two state machines, `Foreground` the
  blocks of the loop, `Drive` their composition with a callback possible
  between any two blocks. `RotorRuns`, `DriveRuns`, `DriveHistory`, `DriveStops`,
  `MailboxRuns`, `RemoteRuns`, `ReadinessRuns` and `PassOrder` prove what holds
  over whole runs, and `DriveLoop` runs the endless loop over the objects and
  shows that every pass is such a run. `SequenceLock` is the publication of snapshots from the callback to the
  foreground.
- **Host protocol.** `Crc16`, `Cobs`, `Frame` and `Client` are the wire codec
  and the transaction loop of the RS-485 tool; `CrcBurst`, `CrcParity` and
  `WireDamage` say which damage it detects.
- **Wrap-around and fixed point.** `Timebase`, `DeadlineIndicator`,
  `RunDeadline`, `StepDirection`, `StepRuns` and `PhaseCurrentReference` relate
  the 32-bit forms to unbounded time, counts and exact waves. `Words` has the
  shared facts about 32-bit words.
- **Analysis.** `LinearSolver`, `LeastSquares` and `EncoderUnwrap` are the fit
  and the unwrap loop of the current-loop analysis, over exact reals and ints;
  `SolverRefusal` says what a refusal of the solver means.

`dafny verify dfyconfig.toml` checks the whole project.

## How the model is built

- Code that changes state is imperative: classes for the supervisor, the rotor
  runtime, the foreground loop, the step decoder, the overdue indicator and the
  host client; loops for COBS, CRC, the solver, the fit, the unwrap loop, the
  transaction and the snapshot getter. Each method is tied to a specification
  function or relation, and the laws are proved about that.
- A controller is its `active` bit. What it answers to a start or an update is
  a parameter (`RotorRuntime.World`), and the bit follows as in
  `firmware/src/control/*.c`: a successful start makes it active, a failed one
  leaves it inactive, NONE and CHANGED keep it active, every other outcome, a
  stop, an abort, `actuator_failed` and `reference_rejected` make it inactive,
  and a torque update with an invalid phase ends it. What the backend answers is
  part of the same parameter; a stop call always ends with the backend not
  running.
- Memory is sequentially consistent. A foreground step touches the state it
  shares with the callback at most once, so callbacks fall between steps.
- Clocks, samples, outcomes of hardware calls and mirrored controller states
  that the foreground consults are parameters, so every theorem covers all of
  their values.

## What the code relies on

Authority agreement holds under one timing assumption, `Drive.Timely`: a start
enters the runtime's mailbox only when no AUTHORITY_RELEASED event is unread.
The code has no check for it. A STOP accepted in READY makes the callback post
a release; if the pass that follows does not take events (they are read once a
millisecond) and accepts a start, the later reading of that release returns the
supervisor to READY under a live cascade. `DriveRuns.AgreementCanFail` reaches
this from boot, and `DriveRuns.AgreementIff` shows that the unread release is
exactly what decides it. In the firmware the violation does not last: the pass
that reads the release has also refreshed its mirror of the active controllers,
and firmware/src/main.c:3783-3827 forces a fault and panics in that same pass
when the mirror shows a live cascade without authority.

The published clock is exact as long as no raw sample is more than 2^31 us
behind it, which counter periods up to 2^31 us guarantee. The CRC protects the
contents of a frame but not its stuffing: `WireDamage.CodeByteDamageCanPass`
changes one code byte of an accepted frame into another accepted frame. The
pivot threshold of the solver is absolute, so `SolverRefusal.SolvableButRefused`
refuses a system that has a solution.

A getter returns a coherent snapshot when fewer than 2^31 publications fall
between its two reads of the sequence word; `SequenceLock.AcceptedIff` says what
the word comparison means without that bound.

## Model

| member | source | states |
|---|---|---|
| RotorRuntime.RotorControlRuntime.SpiCallback | firmware/src/app/rotor_control_runtime.c:1266-1465 | From any valid state: without a valid sample nothing is live afterwards and what was live or queued is a secured FAULT; STOP ends idle with RELEASED or FAULT; a start brings up its whole cascade exactly when everything it asks for is granted and the backend was not running, else a FAULT; with no request the live cascade goes on or ends as its controllers report; the cascade shape is kept, the mailbox emptied, a live runtime that becomes idle has stopped the backend and posted an event, and a posted FAULT finds the bridge low, nothing live, nothing queued |
| RotorRuntime.RotorControlRuntime.RejectRequestsWithoutFeedback | firmware/src/app/rotor_control_runtime.c:286-308 | Nothing is live and nothing queued afterwards; a live cascade or a queued start is a secured FAULT, a queued STOP is answered with RELEASED |
| RotorRuntime.RotorControlRuntime.FailActiveControl | firmware/src/app/rotor_control_runtime.c:204-240 | A live cascade of any shape ends with nothing live, backend stopped, bridge low and FAULT posted; an idle runtime is untouched |
| RotorRuntime.RotorControlRuntime.ProcessStopRequest | firmware/src/app/rotor_control_runtime.c:242-285 | Ends idle; a live runtime stops the backend and posts RELEASED or, with the bridge low, FAULT; an idle one always posts RELEASED |
| RotorRuntime.RotorControlRuntime.StopBackend | firmware/src/app/rotor_control_runtime.c:182-202 | Posts the given event exactly when the backend stopped and reports no fault, otherwise FAULT with the bridge low; FAULT is only posted when the drive is secured |
| RotorRuntime.RotorControlRuntime.StartPosition | firmware/src/app/rotor_control_runtime.c:439-511 | Starts exactly when the backend is healthy and not running, the phase is known and all three controllers, the reference and the backend accept; wherever the chain breaks nothing is live, secured, with FAULT |
| RotorRuntime.RotorControlRuntime.StartVelocity | firmware/src/app/rotor_control_runtime.c:384-437 | The same for velocity over torque |
| RotorRuntime.RotorControlRuntime.StartTorque | firmware/src/app/rotor_control_runtime.c:344-382 | The same for torque |
| RotorRuntime.RotorControlRuntime.StartAlignment | firmware/src/app/rotor_control_runtime.c:310-342 | The same for alignment, whose reference must be ready |
| RotorRuntime.RotorControlRuntime.UpdatePosition | firmware/src/app/rotor_control_runtime.c:696-807 | By what the position controller reports: goes on when every layer below followed, ends everything in a secured FAULT when one did not or it failed, ends with RELEASED when it completed and the backend stopped cleanly |
| RotorRuntime.RotorControlRuntime.UpdateVelocity | firmware/src/app/rotor_control_runtime.c:609-695 | The same for velocity over torque |
| RotorRuntime.RotorControlRuntime.UpdateTorque | firmware/src/app/rotor_control_runtime.c:561-607 | The same for torque |
| RotorRuntime.RotorControlRuntime.UpdateAlignment | firmware/src/app/rotor_control_runtime.c:513-558 | By what the controller reports: goes on when its reference is taken, ends with ALIGNMENT_COMPLETED or, on failure, RELEASED when the backend stopped cleanly, and in a secured FAULT otherwise |
| RotorRuntime.RotorControlRuntime.RequestStart | firmware/src/app/rotor_control_runtime.c:872-993 | Queues exactly when the parameters are valid, the mailbox is empty and nothing is live; otherwise changes nothing |
| RotorRuntime.RotorControlRuntime.RequestStop | firmware/src/app/rotor_control_runtime.c:995-1006 | STOP replaces whatever was queued |
| RotorRuntime.RotorControlRuntime.ForceFault | firmware/src/app/rotor_control_runtime.c:1008-1034 | Ends idle, mailbox empty, secured, with FAULT added to the events |
| RotorRuntime.RotorControlRuntime.ClearFaults | firmware/src/app/rotor_control_runtime.c:1036-1144 | On success everything is idle and empty, on failure nothing has changed |
| RotorRuntime.RotorControlRuntime.TakeEvents | firmware/src/app/rotor_control_runtime.c:1168-1183 | Returns all unread events and leaves none |
| RotorRuns.MailboxAlwaysValid | firmware/src/app/rotor_control_runtime.c:872-1034 | In every run the mailbox holds at most one request and a queued start only over an idle runtime |
| RotorRuns.StopStaysQueued | firmware/src/app/rotor_control_runtime.c:995-1006 | A queued STOP survives every operation that does not consume requests |
| RotorRuns.StopDominates | firmware/src/app/rotor_control_runtime.c:1395-1410 | The next callback after STOP was queued, valid sample or not, ends idle with RELEASED or FAULT posted |
| RotorRuns.EarlierStartNeverRuns | firmware/src/app/rotor_control_runtime.c:884-894 | Whatever comes alive after STOP was queued does so on a request accepted after that STOP had been consumed |
| RotorRuns.NoFeedbackNothingLive | firmware/src/app/rotor_control_runtime.c:1304-1393 | In every run a callback without a valid sample leaves nothing live and nothing queued, and posts FAULT for what it ended |
| RotorRuns.LiveHadFeedback | firmware/src/app/rotor_control_runtime.c:1304-1393 | Whatever is live had a valid sample at the last callback |
| SequenceLock.Publish | firmware/src/app/rotor_control_runtime.c:119-163 | The writer's stores are a run of the machine and add one complete record to the history |
| SequenceLock.PublishAll | firmware/src/app/rotor_control_runtime.c:119-163 | From initialisation, publication after publication: the history is exactly what was published |
| SequenceLock.SameCountSameMemory | firmware/src/app/rotor_control_runtime.c:119-163 | Between two instants with the same even count memory holds one complete record throughout |
| SequenceLock.AcceptedIff | firmware/src/app/rotor_control_runtime.c:1208 | The retry condition accepts exactly when no publication was under way at the first read and the count moved by a multiple of 2^32 |
| SequenceLock.GetSnapshot | firmware/src/app/rotor_control_runtime.c:1185-1210 | Under any interleaving with field-by-field stores, including the `continue` path and any stale `after`, a returned copy is one single complete publication, current at an instant inside the call |
| Supervisor.AppSupervisor.HandleEvent | firmware/src/app/app_state.c:66-203 | New status, acceptance and record for every state, event, context, and for broken invariants |
| Supervisor.AppSupervisor.BridgeAuthorized | firmware/src/app/app_state.c:205-225 | True exactly for a consistent ALIGN or RUN |
| Supervisor.InvariantsAlwaysHold | firmware/src/app/app_state.c:19-42 | Status and authority agree after every event history |
| Supervisor.AuthorizedIff | firmware/src/app/app_state.c:66-225 | After any history the bridge is authorised if and only if some safe request was taken in READY and no fault, readiness loss or release (or completion of that alignment) came since |
| Supervisor.HeldGrantAuthorizes | firmware/src/app/app_state.c:114-182 | A held grant determines the status exactly |
| Supervisor.RecoveryIsComplete | firmware/src/app/app_state.c:66-203 | After FAULT at any point, authorisation implies a safe acknowledgement taken in FAULT, then a safe confirmation taken in DIAGNOSTIC, then a safe request taken in READY that is still held |
| Supervisor.RecoveryAfterReport | firmware/src/app/app_state.c:81-85 | After any reported fault, and after a readiness loss under authority, authorisation implies the whole recovery and a new safe request, each step taken in its state |
| Supervisor.FaultIff | firmware/src/app/app_state.c:66-203 | After any history the supervisor is in FAULT if and only if a detected fault, or a loss of readiness under authority, has not been safely acknowledged since |
| Supervisor.OperationalIff | firmware/src/app/app_state.c:98-121 | It is READY or has given out authority if and only if readiness was safely confirmed in DIAGNOSTIC with no loss of readiness and no fault since |
| Supervisor.ResetSafeIff | firmware/src/app/app_state.c:89-97 | It is in RESET_SAFE if and only if neither passive initialisation nor a fault was reported |
| Supervisor.DiagnosticIff | firmware/src/app/app_state.c:66-203 | It is in DIAGNOSTIC exactly in the remaining histories |
| Supervisor.LostReadinessIsNoFault | firmware/src/app/app_state.c:115-121 | A loss of readiness in READY leads to DIAGNOSTIC and needs only a new safe confirmation |
| Supervisor.AcceptedIff | firmware/src/app/app_state.c:66-203 | After any history an event is accepted if and only if it is listed for the state, and a refused one changes nothing |
| Supervisor.BrokenStatusFaults | firmware/src/app/app_state.c:75-79 | A status whose authority does not fit its state is answered with FAULT and a refusal |
| Foreground.ForegroundLoop.EventsBlock | firmware/src/main.c:3374-3434 | FAULT leaves the supervisor in FAULT, every mailbox empty, no remote test and the bridge not ready; a completion returns an alignment grant and clears its mailbox; a release returns motion authority and clears the motor mailboxes; a panic only for a completion without an alignment grant |
| Foreground.ForegroundLoop.StartCommand | firmware/src/main.c:473-542 | A start is accepted exactly in READY without authority, bridge ready, no start or stop pending in any mailbox, and for a remote test with acceptable durations, which are kept for it |
| Foreground.ForegroundLoop.ProbeCommand | firmware/src/main.c:544-609 | A started probe has diagnostic authority and its deadline; a refused one leaves READY with the bridge ready; a faulted one FAULT with the bridge not ready; anything else changes nothing |
| Foreground.ForegroundLoop.StopCommand | firmware/src/main.c:611-637 | No start is left and every stop is raised, in all five mailboxes |
| Foreground.ForegroundLoop.BeginClearing | firmware/src/main.c:787-790 | Every mailbox, the remote test and the readiness of the bridge are given up before anything is reset |
| Foreground.ForegroundLoop.FinishClearing | firmware/src/main.c:792-873 | Only when backend and runtime are reset does the supervisor go through FAULT to DIAGNOSTIC and the bridge become ready, over an idle and empty runtime; otherwise nothing more changes |
| Foreground.ForegroundLoop.GrantBlock | firmware/src/main.c:3521-3536 | The mailbox is emptied; authority for exactly this mode is granted from READY with a ready bridge and safe conditions, or the supervisor ends in FAULT |
| Foreground.ForegroundLoop.QueueBlock | firmware/src/main.c:3537-3548 | The start is queued exactly when the runtime accepts it; otherwise the supervisor ends in FAULT |
| Foreground.ForegroundLoop.MotionStopBlock | firmware/src/main.c:3551-3565 | Any motion stop cancels all three motion starts and queues STOP |
| Foreground.ForegroundLoop.AlignmentStopBlock | firmware/src/main.c:3512-3520 | The alignment stop cancels the alignment start and queues STOP |
| Foreground.ForegroundLoop.RemoteBlock | firmware/src/main.c:3670-3768 | Neither remote mailbox stays full; a running test goes on exactly if neither button, probe, due deadline word nor its stop ends it; one starts only from READY on its own start with no stop, bridge ready, valid samples and diagnostic authority, with its deadline set |
| Foreground.ForegroundLoop.FaultBlock | firmware/src/main.c:3893-3919 | Runtime forced to fault, mailboxes cleared, supervisor in FAULT |
| Foreground.ForegroundLoop.StoppedBackendBlock | firmware/src/main.c:3958-3983 | The same with only the motion mailboxes cleared |
| Foreground.ForegroundLoop.ReadinessBlock | firmware/src/main.c:3988-4052 | With the prerequisites met the state is not DIAGNOSTIC afterwards; without them it is neither READY nor under authority: from READY it is DIAGNOSTIC, or FAULT if motion was active, and under authority FAULT with every mailbox empty and the runtime secured |
| Drive.StepKeepsGood | firmware/src/main.c:3374-4052 | Every step of the composed system keeps the joint invariant of runtime, supervisor, mailboxes and unread events |
| Drive.StepIsRotorStep | firmware/src/main.c:3255-4052 | A step of the drive performs exactly the one runtime operation named for it, or none |
| DriveLoop.DriveLoop.Pass | firmware/src/main.c:3250-4052 | One pass over the supervisor, runtime and loop objects, blocks in source order and any number of callbacks between any two, extends the recorded run of the drive to where the objects are and, unless a panic ended it, completes exactly one pass |
| DriveLoop.RunPasses | firmware/src/main.c:3250-4052 | Unless a panic ended them, exactly the given number of passes was executed, block by block in source order; whatever commands, samples, outcomes and interleavings: the start mailboxes are exclusive, and if no start was queued over an unread release every live controller of the runtime object has its authority in the supervisor object and no internal-invariant panic has occurred |
| DriveLoop.DriveLoop.LiveWasGranted | firmware/src/main.c:3521-3668 | A live cascade of the runtime object goes back to a request in the supervisor object's own record of events that nothing has ended |
| PassOrder.BlocksInOrder | firmware/src/main.c:3250-4052 | In every run of the drive the completed blocks are whole passes in source order and a beginning of the next |
| DriveRuns.TimelyRunIsGood | firmware/src/main.c:3374-4052 | Every state of every timely run satisfies the joint invariant |
| DriveRuns.AuthorityAgreement | firmware/src/main.c:3374-4052 | In every reachable state of every timely interleaving a live alignment implies ALIGN with motion authority, any other live cascade RUN with motion authority, a queued start its authority, a running remote test diagnostic authority, and no internal-invariant panic of these blocks has occurred |
| DriveRuns.AgreementIff | firmware/src/main.c:3522-3668 | When a granted start is about to be queued, all continuations keep agreement if and only if no release is unread |
| DriveRuns.AgreementCanFail | firmware/src/main.c:3255-3434 | From boot the drive can reach a granted start over an unread release, and from there a live alignment without authority |
| DriveHistory.StatusIsHistory | firmware/src/main.c:3374-4052 | The supervisor's status is the outcome of exactly the events recorded as told to it, call by call |
| DriveHistory.LiveHasGrant | firmware/src/main.c:3522-3668 | A live cascade goes back to a safe request for that mode taken in READY, with nothing told since that ends it |
| DriveHistory.LiveAfterFault | firmware/src/main.c:729-873 | After the supervisor was in FAULT, a cascade is live only after a safe acknowledgement taken in FAULT, readiness confirmed in DIAGNOSTIC and a new safe request |
| DriveStops.StopEndsMotion | firmware/src/main.c:3512-3565 | In every run of the drive, once STOP is in the runtime the next callback ends idle with RELEASED or FAULT to read |
| DriveStops.StopOutlivesStart | firmware/src/main.c:3512-3668 | Whatever comes alive after STOP was queued was queued by a grant block after that STOP had been consumed |
| DriveStops.StopIsServed | firmware/src/main.c:3512-3565 | A motor stop that is pending between the commands and its block is handed to the runtime in the same pass, unless a recovery withdraws everything |
| DriveStops.StopsAreRaised | firmware/src/main.c:611-637 | A STOP command and a lost link raise every stop, a button its own; no start survives the command |
| DriveStops.LiveHadSample | firmware/src/app/rotor_control_runtime.c:1304-1393 | In every run of the drive whatever is live had a valid sample at the last callback |
| DriveStops.LostFeedbackEndsMotion | firmware/src/app/rotor_control_runtime.c:286-308 | In every run of the drive a callback without a valid sample ends whatever is live or queued in a FAULT |
| ReadinessRuns.ReadinessIsCurrent | firmware/src/main.c:3988-4052 | In every run, after a due readiness turn the supervisor is READY or under authority only if the prerequisites held, is not left in DIAGNOSTIC if they did, and a loss under authority ends everything in FAULT |
| MailboxRuns.MailboxExclusion | firmware/src/main.c:473-542 | In every state of every run, with no timing assumption: at most one start mailbox is full, only in READY, filled only while no stop was pending; a step that empties a start mailbox and makes its request of the supervisor finds its own stop clear, for all five mailboxes |
| MailboxRuns.ForwardedStartIsNewer | firmware/src/main.c:3482-3768 | A start that is handed on was accepted after every earlier stop of its mailbox |
| Crc16.ComputeChecksum | tools/mks57d_rs485.py:674-682 | The nested bit loop computes the CRC fold (polynomial 0x1021, initial 0xFFFF) |
| Crc16.CheckValue | tools/mks57d_rs485.py:674-682 | The CRC of the digits 123456789 is 0x29B1, the published check value of CRC-16/CCITT-FALSE |
| Crc16.AbsorbInjective | tools/mks57d_rs485.py:674-682 | Feeding the same bytes never merges two CRC states |
| Crc16.PassesIffZeroResidue | tools/mks57d_rs485.py:762-764 | A frame passes its CRC check if and only if the CRC over body and field is zero |
| Crc16.DamageIsDetected | tools/mks57d_rs485.py:674-682 | A passing frame of any length that is altered only within two adjacent bytes, the CRC field included, no longer passes |
| CrcBurst.AddByteLinear | tools/mks57d_rs485.py:674-682 | One byte of the CRC is linear over exclusive or |
| CrcBurst.BurstIsDetected | tools/mks57d_rs485.py:674-682 | A passing frame of any length altered by a burst of at most 16 bits at any bit alignment no longer passes |
| CrcParity.PassingIsEven | tools/mks57d_rs485.py:674-682 | Every frame that passes has an even number of one bits |
| CrcParity.OddDamageIsDetected | tools/mks57d_rs485.py:674-682 | Damage that flips an odd number of bits anywhere in a passing frame of any length makes it fail |
| Cobs.CobsEncode | tools/mks57d_rs485.py:685-704 | The in-place code-byte loop computes the block encoding |
| Cobs.CobsDecode | tools/mks57d_rs485.py:707-722 | The index loop computes the block decoding, with both errors |
| Cobs.DecodeEncode | tools/mks57d_rs485.py:685-722 | Decoding an encoding returns every byte string |
| Cobs.EncodeZeroFree | tools/mks57d_rs485.py:685-704 | An encoding holds no zero byte |
| Cobs.EncodeLength | tools/mks57d_rs485.py:685-704 | Its length is n + 1 plus the number of full 254-byte blocks |
| Cobs.EncodeDecode | tools/mks57d_rs485.py:685-722 | Re-encoding any zero-free accepted input returns it when it does not end in a full block, and it plus one byte 1 otherwise |
| Cobs.ShortFrameRoundTrip | tools/mks57d_rs485.py:685-722 | Accepted zero-free inputs of 1 to 254 bytes are returned exactly |
| Frame.ResponseRoundTrip | tools/mks57d_rs485.py:749-765 | Every response, encoded in the layout of requests, decodes to itself |
| Frame.AcceptedIsEncoded | tools/mks57d_rs485.py:749-765 | Every accepted wire frame with no inner zero is the encoding of what it decodes to, or that encoding without the empty block after a final full one; up to 255 bytes it is always the encoding itself |
| Frame.RequestIsNotAResponse | tools/mks57d_rs485.py:725-738 | A request read back is refused for its message type |
| Frame.RequestReachesDevice | tools/mks57d_rs485.py:725-738 | Every request of at most 64 payload bytes ends in its only zero and unstuffs to version 1, its address, sequence, type 1, command, length and payload with a passing CRC; longer ones are refused |
| Frame.AcceptedIff | tools/mks57d_rs485.py:749-765 | A response is accepted if and only if it is delimited and unstuffs to version 1, type 2, the stated length and a passing CRC; its fields are those bytes |
| Frame.ResponseFitsRead | tools/mks57d_rs485.py:784-785 | A response with up to 80 payload bytes fits one read of 92 bytes, with no zero before its delimiter |
| Frame.DamagedResponseIsRejected | tools/mks57d_rs485.py:753-765 | Damage within two adjacent bytes of the unstuffed bytes of an accepted frame is rejected |
| WireDamage.DamagedContentsAreRejected | tools/mks57d_rs485.py:707-765 | An accepted wire frame damaged within two adjacent bytes, its code bytes left alone, is rejected |
| WireDamage.BurstInContentsIsRejected | tools/mks57d_rs485.py:707-765 | An accepted wire frame damaged by a burst of at most 16 bits at any alignment, its code bytes left alone, is rejected |
| WireDamage.OddContentsAreRejected | tools/mks57d_rs485.py:707-765 | An accepted wire frame with an odd number of flipped bits, its code bytes left alone, is rejected |
| WireDamage.CodeByteDamageCanPass | tools/mks57d_rs485.py:707-765 | Changing one code byte of an accepted frame can give another accepted frame with a different command and payload |
| Client.Client.Transact | tools/mks57d_rs485.py:774-820 | The bytes written carry this client's address, the old sequence number, the command and the payload; the sequence number advances, skipping zero, even for a refused payload; the result is that of the first matching answer or the last error |
| Client.Listen | tools/mks57d_rs485.py:781-820 | The bounded read loop returns exactly the specified outcome |
| Client.OutcomeIff | tools/mks57d_rs485.py:784-820 | A body is returned if and only if it is the OK answer with this identity among the first frames, before any silence |
| Client.ErrorIff | tools/mks57d_rs485.py:812-819 | A device status, or a missing status byte, is reported if and only if the first matching answer carries it |
| Client.AnswersIff | tools/mks57d_rs485.py:793-801 | A frame answers if and only if it is accepted with the address, sequence and command of the request |
| Client.SilenceOutcome | tools/mks57d_rs485.py:784-812 | Silence before any frame is a timeout; after refused frames the last refusal is reported |
| Client.FourFramesAtMost | tools/mks57d_rs485.py:784-785 | A fifth frame is never read |
| Client.SequenceClosedForm | tools/mks57d_rs485.py:775-778 | The n-th sequence number is n mod 65535 plus 1 |
| Client.SequencesDiffer | tools/mks57d_rs485.py:775-778 | Two transactions less than 65535 apart use different numbers |
| Client.StaleAnswersAreSkipped | tools/mks57d_rs485.py:793-801 | Up to three answers to earlier transactions are passed over and the right one is returned |
| Timebase.Reconcile | firmware/include/mks57d/timebase_reconcile.h:17-40 | The published word is never behind the previous one and is the previous, the sampled or the sampled plus one period |
| Timebase.ClockRefinement | firmware/include/mks57d/timebase_reconcile.h:17-40 | Over any run of true or one-period-late samples in range the word is the wrapped unbounded clock, which never leads true time and lags at most one period |
| Timebase.ClockRefinementIff | firmware/include/mks57d/timebase_reconcile.h:17-40 | For every 32-bit period the word is right after each sample of a run if and only if no raw sample is more than 2^31 us behind the clock |
| Timebase.ShortPeriodInRange | firmware/include/mks57d/timebase_reconcile.h:8-16 | Periods up to 2^31 us keep every run in that range |
| Timebase.NeverBackwards | firmware/include/mks57d/timebase_reconcile.h:17-40 | The unbounded clock never decreases along a run |
| DeadlineIndicator.Indicator.StartRelease | firmware/include/mks57d/deferred_deadline_indicator.h:24-29 | The returned word is the wrapped number of releases |
| DeadlineIndicator.Indicator.CheckDeadline | firmware/include/mks57d/deferred_deadline_indicator.h:33-51 | True exactly when the newest overdue release becomes incomplete |
| DeadlineIndicator.Indicator.CompleteRelease | firmware/include/mks57d/deferred_deadline_indicator.h:55-69 | True exactly when the newest overdue release has just completed, across sequence wrap |
| DeadlineIndicator.StepRefines | firmware/include/mks57d/deferred_deadline_indicator.h:24-69 | Each call on 32-bit words refines the unbounded ledger across wrap; a check returns true exactly when the ledger becomes overdue, a completion exactly when it stops being so |
| DeadlineIndicator.IndicationIsExact | firmware/include/mks57d/deferred_deadline_indicator.h:31-69 | Over every run from initialisation the true results returned on the 32-bit fields strictly alternate, a raise first, and are returned by exactly the calls at which the newest overdue release becomes incomplete or is completed |
| RunDeadline.DeadlineRefinement | firmware/src/main.c:3670-3677 | For every start and accepted duration the signed comparison is true exactly when the true deadline has come, for polls less than 2^31 ms past it |
| RunDeadline.ExpiredMeaning | firmware/src/main.c:3670-3677 | What the comparison means at every later poll |
| RunDeadline.FirstPassAtDeadlineEnds | firmware/src/main.c:3760-3765 | No pass before the deadline ends the run and the first one at or after it does |
| RemoteRuns.StartSetsDeadline | firmware/src/main.c:3720-3768 | A remote test is started only with accepted durations, and its deadline word is computed from them |
| RemoteRuns.TestEndsAtDeadline | firmware/src/main.c:3670-3717 | In every timely run of the drive a running remote test is ended by a poll exactly when it is stopped, or housekeeping is due and the true time requested for ramp and hold is over, for polls less than 2^31 ms past the deadline |
| StepDirection.CumulativeDelta | firmware/src/app/step_direction.c:6-29 | The signed change, refused exactly for half a wrap |
| StepDirection.Decoder.Update | firmware/src/app/step_direction.c:57-149 | New state and report for every input; a rejected update changes nothing |
| StepDirection.DeltasAreTrue | firmware/src/app/step_direction.c:57-149 | Every delta reported in a run is the true unbounded one |
| StepDirection.StepConservation | firmware/src/app/step_direction.c:57-149 | The deltas sum to the true change and the target is the anchor plus that sum in revolutions |
| StepDirection.TravelWithinRate | firmware/src/app/step_direction.c:131-137 | The total travel is at most rate times elapsed time plus one step an update |
| StepDirection.ConservationDespiteRejections | firmware/src/app/step_direction.c:57-149 | With rejected updates anywhere in a run, what is reported is the true change up to the last accepted sample, the target moves by it, and the travel is within the rate up to that sample |
| StepDirection.LockOut | firmware/src/app/step_direction.c:121-129 | Once the maximum interval has passed, every enabled sample is rejected and changes nothing until the 32-bit interval comes round again |
| StepRuns.DecoderFollows | firmware/src/app/step_direction.c:57-149 | Over any plausible run of samples from initialisation, enable line, positions and rejections included: the target is the position at the last anchoring sample plus the true steps taken since, a step sample is taken exactly when it is within the interval and the rate, and every answer is the expected one |
| StepRuns.AnchorReport | firmware/src/app/step_direction.c:80-118 | An anchoring sample reports no steps and the measured position, and leaves the decoder anchored there |
| StepRuns.ReportedIsTrue | firmware/src/app/step_direction.c:139-147 | Since the last anchor the reported deltas sum to the true steps taken |
| StepRuns.RunLeavesFollowing | firmware/src/app/step_direction.c:57-149 | A run that ends enabled leaves the decoder anchored at the last sample taken, from where the conservation lemmas go on |
| StepRuns.Follow | firmware/src/app/step_direction.c:57-149 | The decoder object over a run holds the expected state and gives the expected answers |
| PhaseCurrentReference.SineIsFloorOfWave | firmware/src/control/phase_current_reference.c:25-60 | The Q15 sine is the floor of the exact piecewise-linear wave |
| PhaseCurrentReference.CosineIsQuarterTurn | firmware/src/control/phase_current_reference.c:54-58 | Cosine is sine a quarter turn on |
| PhaseCurrentReference.HalfTurnNegates | firmware/src/control/phase_current_reference.c:18-60 | Sine half a turn on plus sine is 0 or -1 |
| PhaseCurrentReference.SineContinuity | firmware/src/control/phase_current_reference.c:25-60 | Phases D interpolation steps apart around the circle differ by less than 6393*D/65536 + 1 |
| PhaseCurrentReference.SinCosBound | firmware/src/control/phase_current_reference.c:36-60 | For every phase both values lie in [-32767, 32767] and the sum of squares between 32600^2 and 32769^2 |
| PhaseCurrentReference.ScaleIsNearest | firmware/src/control/phase_current_reference.c:62-85 | The scaled reference is the nearest integer, except for the one saturating input, and never exceeds the magnitude |
| PhaseCurrentReference.PolarBound | firmware/src/control/phase_current_reference.c:87-111 | For every 16-bit magnitude m, A and B never exceed m and A^2 + B^2 stays inside a circle of at most m + 3, of m + 1 up to 4798 counts; each is the nearest integer except for the one saturating value |
| PhaseCurrentReference.OvershootExists | firmware/src/control/phase_current_reference.c:62-111 | At 9833 counts, beyond the converters, a phase exists at which A^2 + B^2 reaches (m + 1)^2 |
| LinearSolver.FindPivot | tools/analyze_current_loop.py:34 | The first row with the largest entry of the column |
| LinearSolver.ReduceColumn | tools/analyze_current_loop.py:37-48 | The loop computes the column reduction |
| LinearSolver.ReduceKeeps | tools/analyze_current_loop.py:37-48 | Swap, scaling and elimination keep the solution set and turn the column into one of the identity |
| LinearSolver.Solve | tools/analyze_current_loop.py:31-49 | A returned triple is the only solution of the original system; the system is refused if and only if at some stage of the elimination no entry of the column reaches the threshold |
| SolverRefusal.StageDet | tools/analyze_current_loop.py:33-48 | The determinant is the product of the pivots so far times that of the stage reached |
| SolverRefusal.AcceptedDet | tools/analyze_current_loop.py:31-49 | A system that is not refused has a determinant of exactly its three pivots, at least 1e-36 |
| SolverRefusal.SingularIsRefused | tools/analyze_current_loop.py:35-36 | Every singular matrix is refused |
| SolverRefusal.RefusalBound | tools/analyze_current_loop.py:35-36 | A refusal bounds the determinant by the pivots so far, the threshold and the cofactors of the column that failed |
| SolverRefusal.SolvableButRefused | tools/analyze_current_loop.py:35-36 | The threshold is absolute: a system with exactly one solution can be refused |
| SolverRefusal.DiagonalRefusedIff | tools/analyze_current_loop.py:35-36 | A diagonal system is refused if and only if one of its entries is smaller than 1e-12 |
| LeastSquares.Fit | tools/analyze_current_loop.py:59-67 | For captures of any length the fitted coefficients minimise the sum of squared residuals over all real triples, and no other triple attains the minimum; refusal is exactly that of the solver on the normal equations |
| LeastSquares.FitQuadrature | tools/analyze_current_loop.py:83-92 | The coefficients stated on the signals: the returned combination of two references and an offset is the only one nearest to the measured signal, and references that do not span the capture are refused |
| LeastSquares.DependentIsRefused | tools/analyze_current_loop.py:35-36 | A capture of any length whose basis functions are dependent is refused, whatever was measured |
| LeastSquares.ErrorExpansion | tools/analyze_current_loop.py:58-66 | The squared error of one triple in terms of another: cross term and energy |
| LeastSquares.CrossIsSlope | tools/analyze_current_loop.py:86-93 | The cross term is the residual of the normal equations |
| EncoderUnwrap.Unwrap | tools/analyze_current_loop.py:232-239 | The loop computes the running count |
| EncoderUnwrap.UnwrapTracksIff | tools/analyze_current_loop.py:232-239 | The count follows the true position at every sample if and only if each movement is below half a turn, or exactly half a turn without crossing the encoder's wrap |
| EncoderUnwrap.UnwrapCongruent | tools/analyze_current_loop.py:232-239 | For any readings the count stays congruent to them modulo a turn |

## Left out

- Register and GPIO access: only "bridge forced low" and "backend running" are kept, as state of the runtime.
- Interiors of the controllers, the current-loop backend, the predictor and the configuration store: each is reduced to its `active` bit or to a free outcome.
- RotorRuntime.RotorControlRuntime.RequestStart: the four request functions share one member; the stored set-points and durations that travel with a request are not modelled, only their validity check.
- RotorRuntime.RotorControlRuntime.SpiCallback: encoder decoding, estimator and diagnostics counters are one flag for a valid sample; the publications at its end are in SequenceLock.
- Alignment clearing and the mirror of active controllers in the foreground: no effect on the modelled state.
- The panics at firmware/src/main.c:3783-3827: they compare a mirror that is refreshed only at the top of a housekeeping pass, so agreement is stated on the live runtime instead.
- Foreground.ForegroundLoop.StartCommand: payload limits other than the durations of a remote test and the mirrored and backend conditions of the five start handlers are one free parameter; the READY, bridge and mailbox conditions they share are modelled.
- Foreground.ForegroundLoop.RemoteBlock: the button and a finished probe that end a running test are one parameter.
- RemoteRuns.TestEndsAtDeadline: for tests started from the start mailbox; a bootstrap probe sets its deadline in its own command and is ended by the backend as well.
- PhaseCurrentReference.PolarBound: the circle of m + 1 counts is proved up to 4798 counts and refuted at 9833; between the two only m + 2 is claimed. The converters end at 4095.
- Foreground.ForegroundLoop.GrantBlock: one member for the four grant blocks at firmware/src/main.c:3521-3549 and 3566-3668, which differ only in mode and parameters; QueueBlock is their second half.
- Panics on ADC calibration, snapshot reading and backend initialisation: the drive stops there, so nothing follows from them.
- SequenceLock.GetSnapshot: a record is a list of fields, one reader at a time, and the retry loop ends with the observed run; that the loop ends at all is not claimed.
- StepDirection.Decoder.Update: exact reals in place of floats, so the final finiteness check never fails.
- LeastSquares.FitQuadrature: exact reals; the cosine and sine of the sample times are given as rows, amplitude and phase are not derived from the coefficients, and captures whose columns differ in length are covered only by the solver's result.
- Floating-point rounding, NaN and infinities.
- The command dispatch table, status packing, display, I2C, watchdog, self-test and diagnostics copies.
- The rest of the host tools: captures, CSV, argument parsing, plots and tuning.
