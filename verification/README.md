# Sendspin conformance: recorders and judges

The conformance suite judges a protocol implementation from a trace of what crossed the wire.
This project models the way from a traced message to a verdict and proves properties of it, for
every trace and every JSON parser:

- the server adapter's **trace recorder**, one message at a time: it lists outbound messages at the
  place where their first frame was traced, reassembles fragments and artwork, and holds back what
  was sent until a write completion covers it (`RecorderSpec`, `Recorder`, `StartOrder`,
  `FragmentTransparency`, `Deferred`, `ArtworkTransfer`, `SentEvidence`);
- the **Python recorder** of the same exchange, under overlapping async sends, and its verdict
  (`AsyncRecorder`, `AsyncJudged`);
- the **trace judges** of the time exchange and of the available gate, and what their one pass
  decides, in the code and in its docstring (`TimeJudge`, `TimeLaws`, `DocumentedRule`, `GateJudge`);
- **recorder and judge together**: compression keeps the verdict, and a server that behaves is never
  accused in any reachable state (`NoFalseAccusation`, `Brackets`, `GateComposition`, `GateExamples`);
- the **other judges**: CORE-001, -002 and -004 as both ends draw them, pairing with a code, and
  audio chunk framing (`ServerJudges`, `ClientJudges`, `TraceJudges`, `PairingChecks`, `ChunkFraming`);
- the **bytes underneath**: big-endian headers, three PCM decoders, binary32 rounding, the client's
  audio report, two fixture decode loops, and the recorder's steps told in bytes (`Wire`, `WireLevel`,
  `Pcm`, `ClientAudio`, `Fixture`).

A recorder is a class whose methods change its fields. Each method is proved to take the object's
value (`View`) to what a function on values says (`RecorderSpec.Step`), and the laws are lemmas
about runs of that function: `Run(p, tr, n)` is the state after the first `n` steps of the trace
`tr` under the parser `p`. A judge is a method with a loop, proved equal to a function; the lemmas
beside it say what that function decides without mentioning the pass.

`StartOrder` gives the recorder's lists a second definition with no insertion in it: walk the trace
from front to back and list, at each step, what started there and has completed by now. Most of the
later results rest on the theorem that the two agree.

## Findings

- The docstring of `time_exchange_violation` (`src/conformance/protocol.py:381-383`) asks for a
  further `client/time` received after another message was sent. The code (line 467), and
  `adapters/README.md:141-143`, ask for no order between the two. The model follows the code.
  `DocumentedRule.SentAfterTheLast` is an exchange on which they differ, and
  `DocumentedRule.VerdictsAgree` says exactly when they do: when the first unanswered `client/time`,
  overtaken by no later answer, stands before the last one and something else was sent after it
  only once that last one was in.
- The recorder's brackets around `stream/start` are always balanced, but they need not close or
  alternate. A `sent` closes nothing exactly when a write completion finds two stream/starts
  waiting, or one that began before the last write that published one (`Brackets.StraysExactly`);
  brackets alternate in every state exactly when neither is ever so (`Brackets.BracketsAlternate`).
  On the traces of `GateExamples.FragmentedStartStrays`, the gate judge calls the trace unrecorded.
- A server that lets each `stream/start` go only while it holds an available state can be accused of
  sending while unavailable, in a state where a fragmented one still waits for its write
  (`GateExamples.StaleStartAccuses`). `GateComposition.NamedExactly` says exactly when such a server
  is reported in no state.
- The Python recorder lists an answer once its send has returned. A snapshot taken while it is still
  under way can name a server that is answering (`AsyncJudged.MidSendIsNamed`); once every
  `client/time` has its answer on record none is named (`AsyncJudged.AnsweredIsCompliant`), and
  `AsyncJudged.OnlyOmissions` says exactly which states name one.
- The C++ fixture loop reports an error where the Python one returns an empty fixture: exactly when
  nothing was decoded, or the cap is zero and the first block is empty (`Fixture.DecodeCpp`).
- The Go PCM helper leaves out a partial sample that the Python and C++ ones reject, and rounds before
  it scales. The copies agree exactly on whole buffers and on depths none converts
  (`Pcm.CopiesAgree`), since binary32 rounding commutes with scaling by a power of two.
- A chunk that reaches the client before any `stream/start` is left out of its PCM hash without
  unsetting the hash (`ClientAudio.EarlyChunkIsLeftOut`). The hash covers all the audio received
  exactly when no chunk with audio came that early (`ClientAudio.CoverageIs`, `HashCovers`).

## Model

| member | source | states |
|---|---|---|
| Recorder.ReadBigEndian | adapters/sendspin-server-cpp/server/trace_recorder.cpp:42-48 | the shift-and-or loop reads the unsigned big-endian value; eight bytes never overflow 64 bits |
| Recorder.ReadSigned | adapters/sendspin-server-cpp/server/trace_recorder.cpp:50-52 | the cast to `int64_t` is two's complement reinterpretation |
| Wire.TimestampRoundTrip | adapters/sendspin-server-cpp/server/trace_recorder.cpp:50-52 | every 64-bit timestamp, negative ones included, survives being written into a header and read back |
| Recorder.TraceRecorder.OnMessage | adapters/sendspin-server-cpp/server/trace_recorder.cpp:62-76 | each traced message moves its own connection by one step and no other; the case connection is the latest to carry a client/hello |
| Recorder.TraceRecorder.Snapshot | adapters/sendspin-server-cpp/server/trace_recorder.cpp:87-110 | the report is the run of the messages traced on the case connection, its exchange being the confirmed entries less leading and repeated other-sent |
| Recorder.Connection.ReportExchange | adapters/sendspin-server-cpp/server/trace_recorder.cpp:94-108 | the filtering loop over the two parallel lists computes the confirmed entries, merged |
| Recorder.Connection.OnWritten | adapters/sendspin-server-cpp/server/trace_recorder.cpp:112-148 | a write completion confirms every entry and publishes all that was held back, to the lists it belongs in |
| Recorder.Connection.PublishMetadata | adapters/sendspin-server-cpp/server/trace_recorder.cpp:115-126 | the first timestamped object of the batch becomes the first state if there is none yet; the last object becomes the latest |
| Recorder.Connection.OnInbound | adapters/sendspin-server-cpp/server/trace_recorder.cpp:150-186 | an arrival is appended to the events, and to the exchange or the availability trace by its type; true for a client/hello |
| Recorder.Connection.OnFragment | adapters/sendspin-server-cpp/server/trace_recorder.cpp:200-246 | a first fragment saves the position and discards what was buffered; the last one places the message there, JSON or audio alike |
| Recorder.Connection.OnBinary | adapters/sendspin-server-cpp/server/trace_recorder.cpp:248-263 | a role message in one frame: its event, its frame record, its timestamp, and its audio when the trace's count agrees |
| Recorder.Connection.OnOutboundJson | adapters/sendspin-server-cpp/server/trace_recorder.cpp:266-331 | a body is inserted at its position in events, exchange and, for a stream/start, the availability trace, unconfirmed and unwritten |
| Recorder.Connection.OnOutboundArtwork | adapters/sendspin-server-cpp/server/trace_recorder.cpp:333-364 | an announcement opens a transfer, a part on its channel extends it, a cancel drops it, and one that holds its total is complete; any other frame changes nothing |
| Recorder.Connection.Take | adapters/sendspin-server-cpp/server/trace_recorder.cpp:62-76 | any traced message takes the connection's value one step of the machine |
| WireLevel.InboundTextIs | adapters/sendspin-server-cpp/server/trace_recorder.cpp:150-186 | in bytes: a binary frame of type 0 is taken for the text after that byte, exactly as a text frame of that text, but for its event; a client/time and a client/state leave their entries, anything else only its event |
| WireLevel.InboundRoleData | adapters/sendspin-server-cpp/server/trace_recorder.cpp:153-156 | any other inbound binary message leaves its event and nothing else |
| WireLevel.HelloIs | adapters/sendspin-server-cpp/server/trace_recorder.cpp:165-167 | a client/hello is recognised by the type of that text, in either frame |
| WireLevel.OutboundTextIs | adapters/sendspin-server-cpp/server/trace_recorder.cpp:188-206 | in bytes: a text frame, and a binary one of type 0, append the text's entries, unconfirmed, and hold back what it carries |
| WireLevel.ChunkIs | adapters/sendspin-server-cpp/server/trace_recorder.cpp:248-263 | in bytes: a chunk of type 4 gives its timestamp, its audio after the 13-byte header when the count agrees, and its frame with those 13 bytes |
| WireLevel.ReassembledChunkIs | adapters/sendspin-server-cpp/server/trace_recorder.cpp:235-244 | in bytes: a reassembled chunk has its audio after 12 bytes |
| WireLevel.FragmentIs | adapters/sendspin-server-cpp/server/trace_recorder.cpp:207-218 | in bytes: type 1, bit 1 of the flags for the first fragment, bit 0 for the last, the original type in front of the first one's payload |
| RecorderSpec.Run | adapters/sendspin-server-cpp/server/trace_recorder.cpp:205-246 | in every reachable state a saved position lies within the lists, and an artwork transfer holds fewer bytes than its total |
| StartOrder.OpenMeaning | adapters/sendspin-server-cpp/server/trace_recorder.cpp:205-224 | a message is being reassembled exactly when its first fragment has been followed by neither a last nor another first one |
| StartOrder.CompletionUnique | adapters/sendspin-server-cpp/server/trace_recorder.cpp:205-246 | at most one message starts at a step, and it completes at one step or not at all |
| StartOrder.LastWriteMeaning | adapters/sendspin-server-cpp/server/trace_recorder.cpp:112-114 | a step is covered exactly when a write completion follows it |
| StartOrder.RecordedInStartOrder | adapters/sendspin-server-cpp/server/trace_recorder.cpp:188-331 | over every run, events, exchange with its confirmation flags, availability trace and pending stream/starts equal the lists read off the trace in start order; the buffer and the saved position are those of the open message |
| FragmentTransparency.SplitReassembles | adapters/sendspin-server-cpp/server/trace_recorder.cpp:200-246 | fragments with arrivals between them leave the evidence of the message placed where it began, then the arrivals |
| FragmentTransparency.FragmentsLikeWhole | adapters/sendspin-server-cpp/server/trace_recorder.cpp:188-264 | from any state, any split of a JSON, audio or other plain message with any arrivals in between leaves all the evidence of the whole message traced at its first fragment, save the per-frame list |
| FragmentTransparency.JsonListsNoFrames | adapters/sendspin-server-cpp/server/trace_recorder.cpp:214-224 | a fragmented JSON body lists no frame |
| Deferred.AudioIsConserved | adapters/sendspin-server-cpp/server/trace_recorder.cpp:135-140 | published audio is what was accepted before the last write, and published then pending is all that was accepted, in completion order, with matching counts and timestamps |
| Deferred.PublishedThenPending | adapters/sendspin-server-cpp/server/trace_recorder.cpp:240-263 | published audio followed by pending audio is the concatenation of every accepted payload |
| Deferred.PendingMetadata | adapters/sendspin-server-cpp/server/trace_recorder.cpp:115-126 | the metadata held back is what completed since the last write |
| Deferred.FirstMetadataIs | adapters/sendspin-server-cpp/server/trace_recorder.cpp:112-126 | the first metadata state is the earliest traced object with a timestamp, once written, bounded by the first write completion after it |
| Deferred.PresentNeverAccused | src/conformance/runner.py:868-901 | with clock readings that never go back, a server whose first timestamp was not in the future when traced is never said to have scheduled it, whatever the client reports |
| Deferred.VerdictTable | src/conformance/runner.py:868-901 | when each verdict is given: missing exactly for a null timestamp, scheduled and current exactly for equal timestamps after and up to the bound, else not judged |
| Deferred.ScheduledExactly | src/conformance/runner.py:868-901 | end to end, on every run: scheduled ahead by d exactly when the first timestamped metadata object carried the time the client reports and that is d later than the clock at the first write after it |
| SentEvidence.FramesListed | adapters/sendspin-server-cpp/server/trace_recorder.cpp:214-256 | the frames reported are the binary frames sent, in order, those of JSON bodies apart; the audio is known only for a chunk in one frame |
| SentEvidence.LatestMetadataIs | adapters/sendspin-server-cpp/server/trace_recorder.cpp:115-126 | the latest metadata reported is the last object completed before the last write |
| SentEvidence.StreamEndWrittenIs | adapters/sendspin-server-cpp/server/trace_recorder.cpp:145-147 | the stream is reported ended exactly when a stream/end completed before the last write |
| SentEvidence.ActivationIs | adapters/sendspin-server-cpp/server/trace_recorder.cpp:281-296 | the activation reported is the text of the first server/activate completed, and the group updates those completed after one |
| SentEvidence.FramesCarryAccepted | src/conformance/chunk_framing.py:176-193 | for a stream of chunks in one frame each behind a 13-byte header, the reported frames pass the type and header checks and carry exactly the audio accepted |
| SentEvidence.TotalNeverConvicts | src/conformance/chunk_framing.py:196-216 | recorder, client report and judge together: on a lossless transport such a stream never has its client convicted from its total |
| SentEvidence.FramesUsable | src/conformance/chunk_framing.py:63-89 | on every run the framing judge can use all the frames reported, in order, unless a chunk counts more audio than its frame has bytes |
| SentEvidence.FramedRightPasses | src/conformance/chunk_framing.py:92-165 | from the wire to a pass: a stream of chunks in one frame each behind 13 bytes passes when both adapters report the recorder's frames |
| ArtworkTransfer.InFlight | adapters/sendspin-server-cpp/server/trace_recorder.cpp:333-364 | while bytes are missing, the transfer holds what was sent and nothing is completed, whatever other traffic interleaves |
| ArtworkTransfer.AnnouncementIs | adapters/sendspin-server-cpp/server/trace_recorder.cpp:346-353 | in bytes: type 8 plus the channel, flags 2, eight bytes of timestamp and the total in four announce that total on that channel |
| ArtworkTransfer.SizeIsRead | adapters/sendspin-server-cpp/server/trace_recorder.cpp:350-353 | the total announced is the one the recorder reads, and the channel is the type less 8 |
| ArtworkTransfer.CancelDrops | adapters/sendspin-server-cpp/server/trace_recorder.cpp:340-345 | a cancel drops the transfer of its own channel only, and completes nothing |
| ArtworkTransfer.StrayPart | adapters/sendspin-server-cpp/server/trace_recorder.cpp:354-359 | a part on a channel without a transfer changes nothing |
| ArtworkTransfer.ImageReassembled | adapters/sendspin-server-cpp/server/trace_recorder.cpp:333-364 | in the bytes of its frames: an announced image cut into parts, interleaved with other traffic, completes exactly one image with exactly those bytes, at its last part |
| ArtworkTransfer.EmptyImage | adapters/sendspin-server-cpp/server/trace_recorder.cpp:346-358 | an image announced as empty is complete at once |
| ArtworkTransfer.PublishedAtWrites | adapters/sendspin-server-cpp/server/trace_recorder.cpp:131-134 | the images published are those completed before the last write completion, once each and in order |
| TimeJudge.TimeExchangeViolation | src/conformance/protocol.py:356-476 | the one-pass judge with in-place removal computes `Judge` on every exchange |
| TimeJudge.DefectsMeaning | src/conformance/protocol.py:479-490 | a payload has no defect exactly when it holds the three integers |
| TimeJudge.DefectsAre | src/conformance/protocol.py:479-490 | a payload that is no object has that one defect; otherwise a field is omitted when absent and mistyped when there and no integer |
| TimeJudge.EchoRemovesOldest | src/conformance/protocol.py:442-455 | an echo of v removes the one client/time whose rank among those carrying v is the rank of the echo; it finds none exactly when v was sent no more often than already echoed |
| TimeJudge.ScanMeaning | src/conformance/protocol.py:413-462 | the pass runs to the end exactly when every entry is well formed and in every prefix no value is echoed more often than sent; its pending list, latest answer and passed-over set are then those the counts give |
| TimeJudge.UnansweredAscending | src/conformance/protocol.py:413-455 | the pending list is strictly ascending in position |
| TimeJudge.FirstDefect | src/conformance/protocol.py:413-462 | otherwise the verdict names the first entry that breaks the counts: its place among its kind, and which defect |
| TimeJudge.VerdictMeaning | src/conformance/protocol.py:464-476 | compliant exactly when clean and nobody is accused; when clean, a violation names the smallest client/time left unanswered that a later one overtook, or that something else was sent after while it is not the last |
| DocumentedRule.WordingAgrees | src/conformance/protocol.py:378-390 | code and docstring accuse the same messages if and only if each unanswered one that was not overtaken, stands before the last client/time and has something sent after it, has something sent before that last one |
| DocumentedRule.VerdictsAgree | src/conformance/protocol.py:378-390 | on every clean exchange the verdicts differ exactly when the first unanswered client/time was sent past only after the last one was in; then the docstring is silent and the code names it |
| DocumentedRule.SentAfterTheLast | src/conformance/protocol.py:464-475 | two unanswered client/time and then another message: the first is named, though no client/time follows |
| TimeLaws.CompressDropsRedundant | adapters/sendspin-server-cpp/server/trace_recorder.cpp:99-107 | merging keeps exactly the elements that are neither a leading nor a repeated other-sent, and never leaves one |
| TimeLaws.CompressionKeepsVerdict | src/conformance/protocol.py:420-476 | merging other-sent entries changes neither the verdict nor what it names |
| TimeLaws.DroppedOtherSentIsSafe | src/conformance/protocol.py:419-424 | deleting an other-sent never turns a pass into a violation |
| TimeLaws.EarlyOtherSentIsSafe | src/conformance/protocol.py:464-475 | moving an other-sent earlier never turns a pass into a violation |
| NoFalseAccusation.SummaryCompress | adapters/sendspin-server-cpp/server/main.cpp:141-167 | parsing the merged entries is merging the parsed ones |
| NoFalseAccusation.SnapshotKeepsVerdict | adapters/sendspin-server-cpp/server/trace_recorder.cpp:87-110 | the verdict on a snapshot is the verdict on all confirmed entries |
| NoFalseAccusation.VerdictOnRun | adapters/sendspin-server-cpp/server/trace_recorder.cpp:87-148 | the verdict on the snapshot of any reachable state is the judge run over the trace in start order |
| NoFalseAccusation.NeverAccused | src/conformance/protocol.py:413-476 | a server that answers the oldest client/time in one frame with ordered integers, and begins no other text while one is unanswered, is compliant in every reachable state; should the client send a bad field, the verdict names the client |
| GateJudge.GateEntries | src/conformance/protocol.py:313-332 | entry i read is element i of the trace, and nothing is read when one element cannot be |
| GateJudge.StreamStartGateViolation | src/conformance/protocol.py:247-310 | the one-pass judge computes `Judge` on every trace, and every gap in the trace reads as unrecorded |
| GateJudge.OpenedMeaning | src/conformance/protocol.py:281-302 | a bracket is open exactly when its sending entry has been followed by states only |
| GateJudge.ScanMeaning | src/conformance/protocol.py:281-310 | the pass stops at the first sent entry whose bracket saw no available state, and tracks the brackets until then |
| GateJudge.PassMeaning | src/conformance/protocol.py:281-310 | a pass means that something was sent and every sent closes a bracket that opened with, or contains, an available state; otherwise the first one that does not is reported |
| GateJudge.ReasonMeaning | src/conformance/protocol.py:335-350 | at the first failure: before any state when none stands before its bracket, while unavailable when the last one says so, the client's fault when the last one has no boolean; the roles are those of the sent entry |
| GateJudge.WideningIsSafe | adapters/README.md:79-85 | moving a sending entry earlier, or a sent entry later, across client/state entries never loses a pass |
| Brackets.BracketsBalanced | adapters/sendspin-server-cpp/server/trace_recorder.cpp:299-310 | in every prefix of every reachable trace there are at most as many sent as sending entries; the difference over the whole is the number of unwritten stream/starts |
| Brackets.StraysExactly | adapters/sendspin-server-cpp/server/trace_recorder.cpp:141-144 | for every trace: no state records a sent that closes nothing if and only if each write completion found at most one stream/start waiting, begun since the last write that published one |
| Brackets.BracketsAlternate | adapters/sendspin-server-cpp/server/trace_recorder.cpp:299-310 | for every trace: sending and sent stand strictly in turn in every state if and only if at no time two stream/starts were pending, or one begun before the last write that published one |
| Brackets.AlternatingMeaning | src/conformance/protocol.py:295-302 | in turn means that a sent stands between any two sending entries, and a sending between any two sent |
| Brackets.OneFrameIsFresh | adapters/sendspin-server-cpp/server/trace_recorder.cpp:299-310 | with every stream/start in one frame, only how many wait together matters |
| GateComposition.StrayIsUnrecorded | src/conformance/protocol.py:295-302 | a readable trace is called unrecorded exactly when its first failure is a sent that closes nothing |
| GateExamples.FragmentedStartStrays | adapters/sendspin-server-cpp/server/trace_recorder.cpp:299-310 | for every parser, available client/state, stream/start and cut of it: a trace whose every write covers one stream/start, each sent while available, that the judge calls unrecorded |
| GateExamples.StaleStartAccuses | src/conformance/protocol.py:281-310 | for every parser and texts alike: a server that sends each stream/start while available, and is accused of sending while unavailable |
| GateExamples.ShortestRuns | src/conformance/protocol.py:335-350 | recorder and judge, for every parser and text: one stream/start after no state, or one of each kind, gets the verdict that belongs to it |
| GateComposition.NamedExactly | src/conformance/protocol.py:247-310 | a server that lets each stream/start go while available is reported in no state if and only if each write found at most one fresh stream/start and each sending entry, where it was inserted, left a closed bracket an available state |
| GateComposition.GateNeverAccuses | src/conformance/protocol.py:247-310 | such a server, with stream/starts in any number of frames, is reported in no state when each write found at most one waiting and all were begun since the last one was published |
| AsyncRecorder.RecordOtherSent | src/conformance/adapters/_aiosendspin_protocol_evidence.py:317-323 | whatever the index, one other-sent stands right before or right at it afterwards unless it is 0, and nothing else changes |
| AsyncRecorder.ControlMessageRecorder.BeginSend | src/conformance/adapters/_aiosendspin_protocol_evidence.py:160-162 | captures where the socket's exchange stands |
| AsyncRecorder.ControlMessageRecorder.ReturnSend | src/conformance/adapters/_aiosendspin_protocol_evidence.py:163-189 | appends a server/time, records any other send where it began, and touches no other socket |
| AsyncRecorder.ControlMessageRecorder.Observe | src/conformance/adapters/_aiosendspin_protocol_evidence.py:191-215 | any text marks the socket as observed and only a client/time is appended |
| AsyncRecorder.StepIsRecorded | src/conformance/adapters/_aiosendspin_protocol_evidence.py:150-215 | the interleaving machine moves the list exactly as the recorder's methods do |
| AsyncRecorder.OverlappingSendsAreSound | src/conformance/adapters/_aiosendspin_protocol_evidence.py:150-189 | for any interleaving, every client/time listed before an other-sent had been received when the send it stands for began, and that send returned; no other-sent at the front, no two in a row |
| AsyncRecorder.PassedOverWasOvertaken | src/conformance/protocol.py:464-476 | a client/time the judge sees as passed over really had another send begun after it arrived |
| AsyncJudged.OnlyOmissions | src/conformance/protocol.py:413-476 | for any interleaving of a server whose answers are begun after what they echo, no defect is ever found: the verdict is compliant, or names the first client/time left unanswered and gone past on record |
| AsyncJudged.AnsweredIsCompliant | src/conformance/adapters/_aiosendspin_protocol_evidence.py:150-189 | once every client/time has its answer on record, the verdict is compliant, whatever else was sent and in whatever order it returned |
| AsyncJudged.NamedWasGonePast | src/conformance/adapters/_aiosendspin_protocol_evidence.py:150-189 | a client/time named is unanswered on record, and a later one was answered or a send begun after it returned and a further one arrived |
| AsyncJudged.MidSendIsNamed | src/conformance/adapters/_aiosendspin_protocol_evidence.py:160-172 | an answer under way while another send returns and a further client/time arrives: the snapshot names the server |
| ServerJudges.JudgeHandshake | adapters/sendspin-server-cpp/server/scenarios.cpp:226-261 | the CORE-001 loop computes `Handshake` |
| ServerJudges.HandshakeMeaning | adapters/sendspin-server-cpp/server/scenarios.cpp:226-261 | CORE-001 passes exactly when the seven messages come first, in order, direction and framing |
| ServerJudges.HandshakeIs | adapters/sendspin-server-cpp/server/scenarios.cpp:233-239 | the seven messages by name, direction and frame |
| ServerJudges.NothingBeforeIs | adapters/sendspin-server-cpp/server/scenarios.cpp:267-293 | CORE-002 passes exactly when only those six messages precede the first server/activate |
| ServerJudges.InitialStateIs | adapters/sendspin-server-cpp/server/scenarios.cpp:347-383 | CORE-004 passes exactly when a client/state came before the first data of type 4 or above after the activation |
| ServerJudges.JudgeNothingBeforeActivation | adapters/sendspin-server-cpp/server/scenarios.cpp:267-293 | CORE-002 finds the first foreign message before the activation, if there is one |
| ServerJudges.JudgeInitialClientState | adapters/sendspin-server-cpp/server/scenarios.cpp:347-383 | CORE-004 compares the first client/state with the first role data after the activation |
| ClientJudges.JudgeClientHandshake | adapters/sendspin-cpp/client/trace_evidence.cpp:119-158 | the client's own loop over its own table: passed, ended after i, or message i wrong, each with all before it right |
| ClientJudges.JudgeNothingBeforeClient | adapters/sendspin-cpp/client/trace_evidence.cpp:160-187 | passed, or the first message that is no handshake message, before the first server/activate received |
| ClientJudges.JudgeInitialStateOfClient | adapters/sendspin-cpp/client/trace_evidence.cpp:241-276 | the outcome is what the first client/state sent and the first role data received after the activation say |
| TraceJudges.Mirrored | adapters/sendspin-cpp/client/trace_evidence.cpp:119-276 | on a connection both ends traced, an outcome meets the client's judge exactly when it is the one the server's reaches, down to the deciding event, for all three |
| ServerJudges.HandshakeImpliesNothingBefore | adapters/sendspin-server-cpp/server/scenarios.cpp:227-293 | CORE-001 passing implies CORE-002 passing |
| PairingChecks.CheckLockout | src/conformance/validator/code_pairing_checks.py:461-530 | PAIR-STATIC-009 passes exactly when five activations each ended in a mismatch abort, and -010 is judged only then and by the sixth's first answer |
| PairingChecks.ActivationIs | src/conformance/validator/code_pairing_checks.py:694-701 | every pairing activation after the given frame is listed, at the place that as many as precede it give |
| PairingChecks.MismatchMeaning | src/conformance/validator/code_pairing_checks.py:471-490 | an attempt counts exactly when the first pair/abort the client sent in its window names a mismatch |
| PairingChecks.HeldMeaning | src/conformance/validator/code_pairing_checks.py:505-517 | the sixth was held exactly when its first answer, of the four kinds, is client/pair-pending |
| PairingChecks.FiveDistinctAborts | src/conformance/validator/code_pairing_checks.py:461-496 | passing takes five distinct mismatch aborts, each inside its own activation's window |
| PairingChecks.CheckVerification | src/conformance/validator/code_pairing_checks.py:290-346 | not applicable without a confirm; else the findings of what the frames and events after the last confirm establish: an abort for a wrong code, a finalize and the next keying, or the first failure that names a stage |
| PairingChecks.EstablishedOnce | src/conformance/validator/code_pairing_checks.py:307-337 | a record establishes one decision only |
| PairingChecks.DecidedInStageOrder | src/conformance/validator/code_pairing_checks.py:290-346 | a decided verification reads passes, at most one failure, then not applicable |
| PairingChecks.CountActivations | src/conformance/validator/suite_checks.py:622-632 | the number of pairing activations up to the given one that no outbound handshake follows by then |
| PairingChecks.CheckPairingIndex | src/conformance/validator/code_pairing_checks.py:151-198 | passes exactly when some activation was answered, and every answered one got its own index and nothing higher or unreadable |
| PairingChecks.AnsweredWellMeaning | src/conformance/validator/code_pairing_checks.py:159-186 | of the client/pair-init and client/pair-pending in its window, none has a higher index or none at all and one has its own |
| ChunkFraming.TransportedFrames | src/conformance/chunk_framing.py:63-89 | all records or none: one unusable record discards the field |
| ChunkFraming.TransportedMeaning | src/conformance/chunk_framing.py:63-89 | which records are unusable, in numbers; else the frames are the records', in order |
| ChunkFraming.DurationMeaning | src/conformance/chunk_framing.py:238-262 | a chunk of n frames is too long when n over the sample rate exceeds 150 ms, and short below 15 ms, whatever the channels and depth |
| ChunkFraming.ChunkDurations | src/conformance/chunk_framing.py:219-272 | passes exactly when no chunk is too long and only the last is short; a failure names the first chunk out of bounds |
| ChunkFraming.ChunkFramingVerdict | src/conformance/chunk_framing.py:92-165 | passes exactly when both halves do; the client is judged only once the server has passed, and every other verdict is what it says of the frames |
| ChunkFraming.HonestTotalNeverConvicts | src/conformance/chunk_framing.py:196-216 | a client that strips 13 bytes off every frame is never convicted from its total |
| ChunkFraming.OtherTotalConvicts | src/conformance/chunk_framing.py:196-216 | one that delivers any other total is convicted with both totals, and one that reports none is not judged |
| ChunkFraming.PassNeeds | src/conformance/chunk_framing.py:92-272 | a pass needs both summaries, a frame, a say on who cut the audio and, where the implementation did, a PCM stream with durations in bounds |
| ChunkFraming.PassBoundsAudio | src/conformance/chunk_framing.py:118-272 | a pass on audio the implementation cut means 13 header bytes on every frame at both ends, at most 150 ms a chunk and at least 15 ms for every chunk but the last |
| Pcm.DecodersAgree | src/conformance/pcm.py:16-43 | Python's 24-bit loop and the three Go decoders read the two's complement value of every sample; `struct.unpack` is two's complement by definition |
| Pcm.SignExtends24 | src/conformance/pcm.py:33-36 | on bits: reading the sign bit is a division, and or-ing the bits above it in subtracts full range |
| Pcm.OrIsSum32 | adapters/sendspin-go/internal/conformance/common.go:116-127 | on bits: bytes shifted apart or-ed together are their sum |
| Pcm.CppSample | adapters/sendspin-cpp/client/trace_evidence.cpp:64-72 | the C++ register loop reads the same value |
| Pcm.RoundScales | adapters/sendspin-go/internal/conformance/common.go:93-131 | rounding to binary32 before or after dividing by full scale gives the same sample |
| Pcm.IntegerRounded | src/conformance/pcm.py:38-42 | an integer of 24 + k bits rounds to the nearest multiple of 2^k, and to the even one on a tie |
| Pcm.LeastInexactSample | src/conformance/pcm.py:38-42 | the sample 16777217, half way between two values, has the canonical sample of the even one |
| Pcm.FloatPcmHasher.UpdateFromPcmBytes | src/conformance/pcm.py:52-66 | a whole buffer adds its canonical samples to the hash and the count; any other changes nothing |
| Pcm.HashCanonicalPcm | adapters/sendspin-cpp/client/trace_evidence.cpp:55-80 | hashes the canonical samples of a whole buffer, and rejects any other |
| Pcm.WholeBufferIs | adapters/sendspin-cpp/client/trace_evidence.cpp:57-61 | a buffer is taken when it is a multiple of 2, 3 or 4 bytes at a depth of 16, 24 or 32 |
| Pcm.GoFloats | adapters/sendspin-go/internal/conformance/common.go:93-131 | hashes the same samples, leaving out a partial one |
| Pcm.CopiesAgree | adapters/sendspin-go/internal/conformance/common.go:93-131 | Go and C++ hash the same samples of a buffer exactly when it is whole samples or of a depth none converts |
| Pcm.ChunkingIsInvisible | src/conformance/pcm.py:52-66 | any sample-aligned chunking of a buffer hashes like the buffer |
| Pcm.IterPcmBlocks | src/conformance/adapters/aiosendspin_server.py:174-191 | the blocks concatenate to the buffer, all full but the last |
| Pcm.BlocksHashAlike | src/conformance/adapters/aiosendspin_server.py:174-191 | cutting a buffer into such blocks leaves its canonical hash alone |
| Pcm.ExpandPcm16To32 | src/conformance/adapters/aiosendspin_server.py:156-171 | each sample's bytes become the high half of a 32-bit sample |
| Pcm.ExpandedHashesAlike | src/conformance/adapters/aiosendspin_server.py:156-171 | the expanded buffer has the canonical samples of the original |
| Pcm.SamplesAreExact | src/conformance/pcm.py:16-43 | every 16- and 24-bit sample, and every widened one, is exact in binary32 |
| ClientAudio.ReceivedAudio | adapters/sendspin-cpp/client/trace_evidence.cpp:413-460 | count, timestamps and hashed bytes are those of the counted chunks; the PCM hash is reported exactly when a format was named, all were PCM and every chunk under one was whole samples |
| ClientAudio.ReceivedChunk | adapters/sendspin-cpp/client/trace_evidence.cpp:432-443 | an inbound message of type 4 of at least 9 bytes adds the audio its length names, at its end; nothing else adds any |
| ClientAudio.FormatIsLatest | adapters/sendspin-cpp/client/trace_evidence.cpp:422-430 | the format in force is that of the last stream/start with a player object |
| ClientAudio.HashReported | adapters/sendspin-cpp/client/trace_evidence.cpp:444-459 | a hash is reported exactly when a format was named, every one named is PCM and every chunk under one is whole samples |
| ClientAudio.ReceivedIsSent | adapters/sendspin-cpp/client/trace_evidence.cpp:434-459 | on a lossless transport the client hashes the bytes the server published followed by those it holds back, with matching counts and timestamps |
| ClientAudio.CoverageIs | adapters/sendspin-cpp/client/trace_evidence.cpp:434-459 | whatever the formats, what reaches the PCM hash is all the audio received if and only if no chunk with audio came before a format was named |
| ClientAudio.HashCovers | adapters/sendspin-cpp/client/trace_evidence.cpp:443-459 | on aligned PCM the report carries a hash whenever a format was named, over the canonical samples of all its audio if and only if every chunk with audio followed a stream/start |
| ClientAudio.EarlyChunkIsLeftOut | adapters/sendspin-cpp/client/trace_evidence.cpp:443-459 | a chunk and then a stream/start: received and counted, and the reported hash is over nothing |
| ClientAudio.CanonicalHashSurvives | adapters/sendspin-cpp/client/trace_evidence.cpp:443-459 | a fixture streamed as PCM in aligned chunks after a stream/start: the report carries the fixture's canonical hash, however it was cut |
| ClientAudio.PublishedHashSurvives | adapters/sendspin-cpp/client/trace_evidence.cpp:434-459 | with every chunk written, on a lossless transport, the report carries the bytes, the count and the canonical hash of what the server published |
| Fixture.DecodePython | src/conformance/flac.py:155-213 | keeps the first min(total, cap) frames of any block split, and their count |
| Fixture.DecodeCpp | adapters/sendspin-server-cpp/server/fixture.cpp:63-102 | keeps the same frames, and says exactly when it reports an error instead |

## Left out

- JSON parsing: every result holds for an arbitrary deterministic parser from bytes to the fields read. Human-readable reasons are enumerations carrying the position reported.
- SHA-256: opaque; equality of digests is stated as equality of what was hashed.
- Mutexes, condition variables and deadlines of the C++ recorder: each callback runs under one lock and is one atomic step.
- An empty inbound binary message: the recorder takes it for JSON and skips a first byte it does not have, past the end of the vector, so C++ leaves the result undefined and the traced-message type excludes it.
- Connection fields kept only as the latest or first value and read by nothing modelled: active roles, player and artwork stream formats, preferred format, controller state, client commands, the client/hello text.
- Recorder.Connection: the small sub-records (session, streams, audio, metadata, artwork) are values held in fields, so their own fields are not separate object fields as in C++.
- Artwork sent in fragments: the reassembly path does not feed the artwork assembler, so the transparency theorem excludes artwork IDs and type 1.
- AsyncRecorder: the availability trace, activation and group_update lists of the Python recorder, and `ChunkPayloadSizes`, are not modelled.
- CORE-003 and the format half of PLAYER-001: field lookups in JSON. The timestamps PLAYER-001 compares are covered by ClientAudio.ReceivedIsSent.
- Which connection the client adapter picks when several were traced.
- PairingChecks: the frame recorder is not part of this model; a frame carries the fields the checks read, and a pairing_index is an integer or is not one (a whole number written as 1.0, which equals its integer in Python, counts as that integer). Finding texts and evidence lists are dropped.
- ChunkFraming.ChunkDurations: the source divides in floating point; the model compares cross-multiplied integers. The stated legacy reason, appended to a text, is dropped.
- Pcm: shifts and ors of bytes are written as sums on unbounded integers with each language's wrap; the lemmas on bits say the two are the same in 16 and 32 bits; the conversion between the two views is not modelled.
- Pcm.Binary32: the exponent is unbounded; samples are zero or between 2^-31 and 2^31 in magnitude, far from the subnormal and overflow ranges.
- Pcm.IterPcmBlocks: block durations and the rounding that yields the block size are not modelled; the block size is a parameter.
- Fixture: the decoder and resampler are an arbitrary sequence of blocks of whole frames; trimming to a codec frame multiple is not modelled.
- Other adapters, process handling, registries, page generation and command lines.
